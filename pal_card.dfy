/** The values a Pal card derives from its record: primary type, gradient and stat-bar scale. */
module PalCard {
  import opened Text
  import opened PalModel

  const Gradients: map<string, string> := map[
    "fire" := "from-red-500/20 via-orange-500/10 to-yellow-500/20",
    "water" := "from-blue-500/20 via-cyan-500/10 to-blue-600/20",
    "grass" := "from-green-500/20 via-emerald-500/10 to-green-600/20",
    "electric" := "from-yellow-400/20 via-yellow-500/10 to-amber-500/20",
    "ice" := "from-cyan-400/20 via-blue-300/10 to-indigo-400/20",
    "dark" := "from-gray-800/20 via-gray-700/10 to-black/20",
    "dragon" := "from-purple-600/20 via-indigo-500/10 to-purple-700/20",
    "neutral" := "from-gray-400/20 via-gray-300/10 to-gray-500/20",
    "normal" := "from-gray-400/20 via-gray-300/10 to-gray-500/20"
  ]

  /**
   * `pal.types[0]?.name.toLowerCase() || "normal"`: the lowercased first type name,
   * or "normal" when there is no type or the lowercased name is empty.
   */
  function PrimaryType(pal: Pal): (r: string)
    ensures r != "" && IsLowerCase(r)
    ensures |pal.types| > 0 && pal.types[0].name != "" ==> r == ToLower(pal.types[0].name)
    ensures |pal.types| == 0 || pal.types[0].name == "" ==> r == "normal"
  {
    var first := if |pal.types| > 0 then ToLower(pal.types[0].name) else "";
    assert IsLowerCase("normal") by { LowerCaseIsFixed("normal"); ToLowerIdempotent("normal"); }
    if first != "" then first else "normal"
  }

  /** `gradients[type] || gradients.normal`: the entry when there is a non-empty one, else "normal"'s. */
  function TypeGradient(typeName: string): (r: string)
    ensures r != ""
    ensures typeName in Gradients ==> r == Gradients[typeName]
    ensures typeName !in Gradients ==> r == Gradients["normal"]
  {
    if typeName in Gradients && Gradients[typeName] != "" then Gradients[typeName] else Gradients["normal"]
  }

  /** The "neutral" and "normal" entries are the same string, so the fallback is also "neutral"'s. */
  lemma NeutralIsNormal(typeName: string)
    requires typeName !in Gradients
    ensures TypeGradient(typeName) == Gradients["neutral"] == Gradients["normal"]
  {
  }

  /** A card whose first type is "Fire" gets the fire gradient, because the name is lowercased first. */
  lemma CapitalisedFirstTypeIsLowered(pal: Pal)
    requires |pal.types| > 0 && pal.types[0].name == "Fire"
    ensures TypeGradient(PrimaryType(pal)) == "from-red-500/20 via-orange-500/10 to-yellow-500/20"
  {
    assert ToLower("Fire") == "fire";
  }

  /** A card with no types gets the "normal" gradient. */
  lemma UntypedPalIsNormal(pal: Pal)
    requires |pal.types| == 0
    ensures TypeGradient(PrimaryType(pal)) == "from-gray-400/20 via-gray-300/10 to-gray-500/20"
  {
  }

  /** `Math.max(speed.run, attack.melee, defense)`: the largest of the three headline stats. */
  function MaxStat(pal: Pal): (m: int)
    ensures m >= pal.stats.speed.run && m >= pal.stats.attack.melee && m >= pal.stats.defense
    ensures m == pal.stats.speed.run || m == pal.stats.attack.melee || m == pal.stats.defense
  {
    var run, melee, defense := pal.stats.speed.run, pal.stats.attack.melee, pal.stats.defense;
    var m := if run >= melee then run else melee;
    if m >= defense then m else defense
  }
}
