/**
 * creature/creature.go: a creature type (a name and its hit dice) and one
 * creature of that type, whose health is rolled once when it is created.
 * Creatures are values here; the pointers the program shares between
 * lists and actions are not modelled.
 */
module Creatures {
  import opened Seqs
  import opened Rolls
  import FaceCounts

  /** A kind of creature and the dice its health is rolled with. */
  datatype CreatureType = CreatureType(Name: string, HitDice: Roll)

  /** One creature: its kind, its own name, its rolled health and the damage it has taken. */
  datatype Creature = Creature(Type: CreatureType, Name: string, RolledHealth: int, DamageTaken: int)

  /**
   * Create: a creature with no damage whose health is the sum of one
   * simulation of the hit dice, drawn from `stream`. Simulating sorts the
   * faces of the hit dice in place, and the new type shares those dice, so
   * the type ends up holding them sorted.
   */
  method Create(creatureType: string, name: string, hitDice: Roll, stream: seq<nat>) returns (c: Creature)
    requires Simulable(hitDice) && Draws(hitDice) <= |stream|
    ensures c.Type.Name == creatureType && c.Name == name && c.DamageTaken == 0
    ensures c.Type.HitDice == Sorted(hitDice)
    ensures c.Type.HitDice.Positive.Counts == hitDice.Positive.Counts
    ensures c.Type.HitDice.Negative.Counts == hitDice.Negative.Counts
    ensures Simulable(c.Type.HitDice) && Draws(c.Type.HitDice) <= |stream|
    ensures var s := c.Type.HitDice;
              c.RolledHealth
              == Total(FaceCounts.Rows(s.Positive.Faces, s.Positive, stream, 0))
              - Total(FaceCounts.Rows(s.Negative.Faces, s.Negative, stream,
                                      FaceCounts.FaceSum(s.Positive.Faces, s.Positive, false)))
              + hitDice.Offset
    ensures WellFormed(hitDice) ==> MinOf(hitDice) <= c.RolledHealth <= MaxOf(hitDice)
  {
    var result := Simulate(hitDice, stream);
    c := Creature(CreatureType(creatureType, result.Roll), name, result.Sum, 0);
  }
}
