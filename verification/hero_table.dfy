/**
 * The static hero table shipped with the application: thirty records, five
 * for each of six roles. Each record is its own constant so that proofs
 * about one field of the table do not carry every string of every record.
 */
module HeroTable {
  import opened Heroes

  const Table: seq<Hero> := [
    Tigreal, Minotaur, Johnson, Khufra, Atlas,
    Chou, XBorg, Badang, Paquito, YuZhong,
    Lancelot, Gusion, Hayabusa, Ling, Fanny,
    Lunox, Kagura, Pharsa, Valir, Cecilion,
    Granger, Claude, Wanwan, Brody, Beatrix,
    Angela, Estes, Diggie, Mathilda, Rafaela
  ]

  const Tigreal: Hero := Hero("1", "Tigreal", "Tank",
    3.0, 8.0, 9.0, 4.0, 2.0,
    52.3, 1.2, 25, 3,
    ["Excellent crowd control", "High durability", "Good initiator"],
    ["Low damage output", "Vulnerable to CC", "Limited mobility"],
    "A reliable tank with strong crowd control abilities and initiating potential.")

  const Minotaur: Hero := Hero("2", "Minotaur", "Tank",
    4.0, 9.0, 8.0, 3.0, 4.0,
    49.7, 1.1, 30, 4,
    ["High durability", "AoE crowd control", "Team healing"],
    ["Rage-dependent ultimate", "Poor mobility", "Weak early game"],
    "A durable tank with potent area crowd control when enraged.")

  const Johnson: Hero := Hero("3", "Johnson", "Tank",
    5.0, 9.0, 7.0, 8.0, 7.0,
    57.6, 1.4, 19, 4,
    ["Unique transport ultimate", "Good durability", "Surprise initiations"],
    ["Skill-shot dependent", "Long cooldowns", "Predictable patterns"],
    "A tank who transforms into a car, providing team transport and surprise initiations.")

  const Khufra: Hero := Hero("4", "Khufra", "Tank",
    5.0, 8.0, 9.0, 6.0, 6.0,
    57.7, 1.3, 15, 6,
    ["Counter to dash skills", "Multiple CC abilities", "Good engage"],
    ["Requires good positioning", "Skill-dependent", "Needs follow-up"],
    "An aggressive tank who excels at locking down mobile enemies.")

  const Atlas: Hero := Hero("5", "Atlas", "Tank",
    4.0, 8.0, 10.0, 5.0, 8.0,
    46.8, 0.9, 24, 5,
    ["Game-changing ultimate", "Multiple CC skills", "Good team fight presence"],
    ["Ultimate can be difficult to land", "Dependent on team follow-up", "Limited damage"],
    "A deep sea tank with powerful area crowd control abilities.")

  const Chou: Hero := Hero("6", "Chou", "Fighter",
    7.0, 6.0, 7.0, 8.0, 9.0,
    49.0, 0.9, 29, 3,
    ["Versatile build paths", "Strong CC", "High mobility"],
    ["Skill-dependent", "Needs precise timing", "Falls off late game"],
    "A versatile fighter with high mobility and crowd control potential.")

  const XBorg: Hero := Hero("7", "X.Borg", "Fighter",
    8.0, 7.0, 5.0, 6.0, 5.0,
    49.0, 0.9, 23, 3,
    ["Sustained AoE damage", "Armor mechanic", "Good team fight presence"],
    ["Vulnerable when armor breaks", "Ultimate cooldown dependent", "Poor against burst"],
    "A fighter with unique armor mechanics and strong area damage.")

  const Badang: Hero := Hero("8", "Badang", "Fighter",
    7.0, 6.0, 8.0, 5.0, 6.0,
    55.3, 1.2, 20, 6,
    ["Wall stun combo", "Strong ultimate", "Good burst potential"],
    ["Combo dependent", "Limited mobility", "Vulnerable to CC"],
    "A fighter who excels at pinning enemies against walls for heavy damage.")

  const Paquito: Hero := Hero("9", "Paquito", "Fighter",
    9.0, 6.0, 6.0, 7.0, 8.0,
    49.7, 1.2, 21, 4,
    ["High burst damage", "Enhanced skills mechanic", "Good mobility"],
    ["Combo dependent", "Skill-intensive", "Falls off late game"],
    "A boxer fighter with combo skills and high burst damage potential.")

  const YuZhong: Hero := Hero("10", "Yu Zhong", "Fighter",
    7.0, 8.0, 6.0, 6.0, 7.0,
    56.3, 1.3, 31, 3,
    ["Sustain through lifesteal", "Good AoE damage", "Strong ultimate"],
    ["Vulnerable to anti-heal", "Skill cooldown dependent", "Can be kited"],
    "A sustain fighter who transforms into a dragon for enhanced abilities.")

  const Lancelot: Hero := Hero("11", "Lancelot", "Assassin",
    9.0, 3.0, 1.0, 10.0, 10.0,
    46.2, 1.1, 31, 3,
    ["High burst damage", "Excellent mobility", "Immunity frames"],
    ["Very skill dependent", "Fragile", "Weak against tanky teams"],
    "A highly mobile assassin with fast burst damage and immunity frames.")

  const Gusion: Hero := Hero("12", "Gusion", "Assassin",
    10.0, 2.0, 1.0, 8.0, 10.0,
    53.8, 1.2, 19, 4,
    ["Extremely high burst", "Dagger reset mechanic", "Good mobility"],
    ["Complex combos", "Very skill dependent", "Weak late game"],
    "A dagger-wielding assassin with complex combos and high burst potential.")

  const Hayabusa: Hero := Hero("13", "Hayabusa", "Assassin",
    8.0, 3.0, 1.0, 9.0, 9.0,
    50.9, 0.9, 21, 3,
    ["Split push potential", "Target isolation", "Untargetable ultimate"],
    ["Single target focus", "Shadow dependent", "Countered by grouping"],
    "A ninja assassin who excels at isolating and eliminating single targets.")

  const Ling: Hero := Hero("14", "Ling", "Assassin",
    9.0, 2.0, 3.0, 10.0, 9.0,
    50.0, 1.0, 23, 6,
    ["Wall-jumping mobility", "High burst", "Evasive potential"],
    ["Energy dependent", "Fragile", "Weak early game"],
    "An assassin who can walk on walls and deliver devastating critical strikes.")

  const Fanny: Hero := Hero("15", "Fanny", "Assassin",
    8.0, 4.0, 2.0, 10.0, 10.0,
    48.6, 1.2, 17, 2,
    ["Unique cable mobility", "High damage potential", "Map control"],
    ["Extremely skill dependent", "Energy hungry", "Counter-picked easily"],
    "A cable-swinging assassin with unique mobility and high skill ceiling.")

  const Lunox: Hero := Hero("16", "Lunox", "Mage",
    9.0, 3.0, 4.0, 6.0, 7.0,
    46.2, 1.2, 28, 5,
    ["Chaos/Order mechanic", "Burst and sustained options", "Immunity skill"],
    ["Position dependent", "Mana hungry", "Limited CC"],
    "A mage with dual Chaos and Order powers offering different playstyles.")

  const Kagura: Hero := Hero("17", "Kagura", "Mage",
    9.0, 3.0, 7.0, 7.0, 10.0,
    53.2, 1.3, 28, 4,
    ["Umbrella mechanic", "High skill ceiling", "Purify effect"],
    ["Complex combos", "Position dependent", "Requires practice"],
    "A complex mage with an umbrella that offers versatile combos and effects.")

  const Pharsa: Hero := Hero("18", "Pharsa", "Mage",
    10.0, 2.0, 5.0, 5.0, 6.0,
    57.9, 1.4, 20, 4,
    ["Long-range damage", "Bird form mobility", "AoE damage"],
    ["Channeling ultimate", "Fragile", "Vulnerable when ulting"],
    "A mage who can transform into a bird and deal massive long-range damage.")

  const Valir: Hero := Hero("19", "Valir", "Mage",
    8.0, 4.0, 8.0, 5.0, 5.0,
    55.6, 1.2, 28, 2,
    ["Strong CC", "Knockback effects", "Good zoning"],
    ["Skill-shot dependent", "Limited mobility", "Falls off late"],
    "A fire mage with strong crowd control and zoning capabilities.")

  const Cecilion: Hero := Hero("20", "Cecilion", "Mage",
    10.0, 2.0, 5.0, 3.0, 6.0,
    53.1, 1.0, 17, 2,
    ["Scaling damage", "Long range", "Infinite scaling mechanic"],
    ["Mana hungry early", "Limited mobility", "Weak early game"],
    "A vampire mage with stacking damage mechanic and powerful late game.")

  const Granger: Hero := Hero("21", "Granger", "Marksman",
    9.0, 3.0, 1.0, 6.0, 6.0,
    55.6, 1.2, 33, 3,
    ["High burst damage", "Good early game", "Mobility from skills"],
    ["Reload mechanic", "Limited attack speed scaling", "Skill dependent"],
    "A marksman with high physical burst damage and a musical theme.")

  const Claude: Hero := Hero("22", "Claude", "Marksman",
    8.0, 2.0, 1.0, 8.0, 7.0,
    56.8, 1.3, 26, 3,
    ["AoE basic attacks", "High mobility", "Stealth option"],
    ["Item dependent", "Fragile", "Weak early game"],
    "A nimble marksman who uses a monkey companion and deals AoE damage.")

  const Wanwan: Hero := Hero("23", "Wanwan", "Marksman",
    9.0, 2.0, 4.0, 9.0, 8.0,
    45.4, 0.9, 26, 2,
    ["Weakness point mechanic", "Immunity ultimate", "High mobility"],
    ["Weak early game", "Requires hitting weak points", "Fragile"],
    "An agile marksman who targets enemy weaknesses and has an immunity-granting ultimate.")

  const Brody: Hero := Hero("24", "Brody", "Marksman",
    10.0, 4.0, 3.0, 5.0, 5.0,
    50.4, 1.4, 24, 3,
    ["High damage per shot", "Stack mechanic", "Good early game"],
    ["Slow attack speed", "Limited mobility", "Skill-shot dependent"],
    "A marksman with high damage per shot but slower attack speed.")

  const Beatrix: Hero := Hero("25", "Beatrix", "Marksman",
    10.0, 3.0, 2.0, 5.0, 9.0,
    46.4, 1.2, 27, 3,
    ["Multiple weapon options", "Versatile playstyle", "Strong early game"],
    ["Complex weapon switching", "Limited late game", "Requires practice"],
    "A marksman who can switch between four different weapons with unique effects.")

  const Angela: Hero := Hero("26", "Angela", "Support",
    5.0, 2.0, 6.0, 4.0, 5.0,
    49.9, 1.2, 28, 2,
    ["Ally attachment ultimate", "Global presence", "Good healing"],
    ["Fragile", "Dependent on allies", "Limited solo potential"],
    "A support who can attach to allies and provide healing and shields.")

  const Estes: Hero := Hero("27", "Estes", "Support",
    4.0, 3.0, 3.0, 3.0, 2.0,
    51.3, 1.4, 26, 2,
    ["Best healer", "Team sustain", "Easy to use"],
    ["Countered by anti-heal", "No hard CC", "Limited damage"],
    "The premier healing support with strong team sustain capabilities.")

  const Diggie: Hero := Hero("28", "Diggie", "Support",
    5.0, 3.0, 7.0, 4.0, 6.0,
    52.9, 1.3, 34, 6,
    ["CC immunity ultimate", "Anti-dive", "CC options"],
    ["Team dependent", "Limited damage", "Situational pick"],
    "A support who counters crowd control with his ultimate and provides utility.")

  const Mathilda: Hero := Hero("29", "Mathilda", "Support",
    6.0, 4.0, 6.0, 9.0, 7.0,
    46.4, 1.2, 24, 3,
    ["High mobility", "Shield mechanic", "Transport ultimate"],
    ["Needs coordination", "Skill-shot dependent", "Limited healing"],
    "A fairy support with high mobility and ally transport capabilities.")

  const Rafaela: Hero := Hero("30", "Rafaela", "Support",
    5.0, 3.0, 5.0, 7.0, 3.0,
    57.6, 0.9, 21, 5,
    ["Team movement speed", "Healing", "Easy to use"],
    ["Fragile", "Limited damage", "Outscaled late game"],
    "An angelic support with healing and movement speed boosts for the team.")
}
