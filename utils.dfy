/** `getTypeVariant`: the badge colour classes of a type name. */
module Utils {
  import opened Text

  const Gray := "bg-gray-500 hover:bg-gray-600 text-white"

  const TypeColors: map<string, string> := map[
    "normal" := "bg-gray-500 hover:bg-gray-600 text-white",
    "fire" := "bg-red-500 hover:bg-red-600 text-white",
    "water" := "bg-blue-500 hover:bg-blue-600 text-white",
    "electric" := "bg-yellow-500 hover:bg-yellow-600 text-white",
    "grass" := "bg-green-500 hover:bg-green-600 text-white",
    "ice" := "bg-cyan-500 hover:bg-cyan-600 text-white",
    "ground" := "bg-amber-500 hover:bg-amber-600 text-white",
    "dragon" := "bg-violet-500 hover:bg-violet-600 text-white"
  ]

  /**
   * The table entry of the lowercased name when there is a non-empty one
   * (JavaScript's `||` falls through on a missing or empty entry), else gray.
   */
  function TypeVariant(typeName: string): (r: string)
    ensures r != ""
    ensures ToLower(typeName) in TypeColors ==> r == TypeColors[ToLower(typeName)]
    ensures ToLower(typeName) !in TypeColors ==> r == TypeColors["normal"]
  {
    var key := ToLower(typeName);
    if key in TypeColors && TypeColors[key] != "" then TypeColors[key] else Gray
  }

  /** Names that agree up to ASCII letter case get the same classes. */
  lemma TypeVariantIgnoresCase(a: string, b: string)
    requires ToLower(a) == ToLower(b)
    ensures TypeVariant(a) == TypeVariant(b)
  {
  }

  /** "Fire", "FIRE" and "fire" all get the red entry. */
  lemma FireInAnyCase()
    ensures TypeVariant("Fire") == TypeVariant("fire") == TypeVariant("FIRE")
    ensures TypeVariant("fire") == "bg-red-500 hover:bg-red-600 text-white"
  {
    assert ToLower("Fire") == "fire";
    assert ToLower("FIRE") == "fire";
    KeysAreLowerCase();
  }

  /** The table's keys are already lower case. */
  lemma KeysAreLowerCase()
    ensures ToLower("normal") == "normal" && ToLower("fire") == "fire" && ToLower("water") == "water"
    ensures ToLower("electric") == "electric" && ToLower("grass") == "grass" && ToLower("ice") == "ice"
    ensures ToLower("ground") == "ground" && ToLower("dragon") == "dragon"
  {
    LowerCaseIsFixed("normal");
    LowerCaseIsFixed("fire");
    LowerCaseIsFixed("water");
    LowerCaseIsFixed("electric");
    LowerCaseIsFixed("grass");
    LowerCaseIsFixed("ice");
    LowerCaseIsFixed("ground");
    LowerCaseIsFixed("dragon");
  }

  /** Each of the eight listed names gets its own entry. */
  lemma ListedNamesGetOwnEntry(name: string)
    requires name in TypeColors
    ensures TypeVariant(name) == TypeColors[name]
  {
    KeysAreLowerCase();
    assert name in {"normal", "fire", "water", "electric", "grass", "ice", "ground", "dragon"};
  }

  /** Any name outside the table, after lowercasing, gets the gray fallback. */
  lemma UnlistedNamesGetGray(name: string)
    requires ToLower(name) !in TypeColors
    ensures TypeVariant(name) == Gray
  {
  }
}
