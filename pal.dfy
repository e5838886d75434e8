/**
 * The part of a Pal record that the filter, the type vocabulary and the card read.
 * Every other field (id, image, description, skills, drops, breeding, maps, ...)
 * is display-only and is not modelled.
 */
module PalModel {

  datatype PalType = PalType(name: string, image: string)

  datatype AttackStats = AttackStats(melee: int)

  datatype SpeedStats = SpeedStats(run: int)

  datatype Stats = Stats(attack: AttackStats, defense: int, speed: SpeedStats)

  datatype Pal = Pal(name: string, types: seq<PalType>, rarity: int, stats: Stats)

  /** The type names of a sequence of types, in order. */
  function Names(ts: seq<PalType>): (ns: seq<string>)
    ensures |ns| == |ts|
    ensures forall i :: 0 <= i < |ts| ==> ns[i] == ts[i].name
  {
    seq(|ts|, i requires 0 <= i < |ts| => ts[i].name)
  }
}
