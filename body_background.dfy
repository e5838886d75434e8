/** `getTypeGradient` of the page background: a gradient per type name, looked up as given. */
module BodyBackground {

  const Gradients: map<string, string> := map[
    "fire" := "from-red-500/10 via-orange-500/5 to-yellow-500/10",
    "water" := "from-blue-500/10 via-cyan-500/5 to-blue-600/10",
    "grass" := "from-green-500/10 via-emerald-500/5 to-green-600/10",
    "electric" := "from-yellow-400/10 via-yellow-500/5 to-amber-500/10",
    "ice" := "from-cyan-400/10 via-blue-300/5 to-indigo-400/10",
    "dark" := "from-gray-800/10 via-gray-700/5 to-black/10",
    "dragon" := "from-purple-600/10 via-indigo-500/5 to-purple-700/10",
    "neutral" := "from-gray-400/10 via-gray-300/5 to-gray-500/10",
    "normal" := "from-gray-400/10 via-gray-300/5 to-gray-500/10"
  ]

  /** `gradients[type] || gradients.normal`, with no lowercasing of `type`. */
  function TypeGradient(typeName: string): (r: string)
    ensures r != ""
    ensures typeName in Gradients ==> r == Gradients[typeName]
    ensures typeName !in Gradients ==> r == Gradients["normal"]
  {
    if typeName in Gradients && Gradients[typeName] != "" then Gradients[typeName] else Gradients["normal"]
  }

  /** The "neutral" and "normal" entries are identical. */
  lemma NeutralIsNormal()
    ensures TypeGradient("neutral") == TypeGradient("normal") == "from-gray-400/10 via-gray-300/5 to-gray-500/10"
  {
  }

  /** The key is taken as given, so "Fire" is not the fire entry and falls back to "normal". */
  lemma LookupIsCaseSensitive()
    ensures TypeGradient("Fire") == Gradients["normal"]
    ensures TypeGradient("Fire") != TypeGradient("fire")
  {
  }
}
