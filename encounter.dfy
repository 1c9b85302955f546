/**
 * The reversible edits to the encounter's creature list, from
 * party/actions.go (and their older copies in party.go): append a
 * creature, add damage to one creature, delete the creature at an index.
 * Each edit is a value; Applied and Undone say what its apply and undo do
 * to the list, and the lemmas below prove that undo takes the list back.
 */
module Encounter {
  import opened Creatures

  /** AddCreatureAction, DamageCreatureAction and DeleteCreatureAction. */
  datatype Action =
    | AddCreature(creature: Creature)
    | DamageCreature(id: int, amount: int)
    | DeleteCreature(id: int, deleted: Creature)

  /** apply indexes the list at `id`, so `id` must lie in it; appending always works. */
  predicate Applicable(a: Action, cs: seq<Creature>)
  {
    match a
    case AddCreature(_) => true
    case DamageCreature(id, _) => 0 <= id < |cs|
    case DeleteCreature(id, _) => 0 <= id < |cs|
  }

  /** The creature with `amount` more damage taken (less, for a negative amount). */
  function Damaged(c: Creature, amount: int): (d: Creature)
    ensures d.DamageTaken - c.DamageTaken == amount
    ensures d.Type == c.Type && d.Name == c.Name && d.RolledHealth == c.RolledHealth
  {
    c.(DamageTaken := c.DamageTaken + amount)
  }

  /**
   * What apply leaves in the list: the creature appended; creature `id`
   * with `amount` more damage and every other creature as it was; the
   * creature at `id` gone and the rest in their order.
   */
  function Applied(a: Action, cs: seq<Creature>): (r: seq<Creature>)
    requires Applicable(a, cs)
    ensures a.AddCreature? ==> |r| == |cs| + 1 && r[..|cs|] == cs && r[|cs|] == a.creature
    ensures a.DamageCreature? ==>
              && |r| == |cs| && r[a.id].DamageTaken == cs[a.id].DamageTaken + a.amount
              && forall j :: 0 <= j < |cs| && j != a.id ==> r[j] == cs[j]
    ensures a.DeleteCreature? ==>
              && |r| == |cs| - 1
              && (forall j :: 0 <= j < a.id ==> r[j] == cs[j])
              && (forall j :: a.id <= j < |r| ==> r[j] == cs[j + 1])
  {
    match a
    case AddCreature(c) => cs + [c]
    case DamageCreature(id, amount) => cs[id := Damaged(cs[id], amount)]
    case DeleteCreature(id, _) => cs[..id] + cs[id + 1..]
  }

  /** undo drops the last creature, or indexes at `id`, or inserts at `id`. */
  predicate Undoable(a: Action, cs: seq<Creature>)
  {
    match a
    case AddCreature(_) => |cs| >= 1
    case DamageCreature(id, _) => 0 <= id < |cs|
    case DeleteCreature(id, _) => 0 <= id <= |cs|
  }

  /**
   * What undo leaves in the list: the last creature dropped; the damage
   * taken back off creature `id`; the remembered creature put back at
   * `id`, the later ones moved up one place.
   */
  function Undone(a: Action, cs: seq<Creature>): (r: seq<Creature>)
    requires Undoable(a, cs)
    ensures a.AddCreature? ==> |r| == |cs| - 1 && cs == r + [cs[|cs| - 1]]
    ensures a.DamageCreature? ==>
              && |r| == |cs| && r[a.id].DamageTaken == cs[a.id].DamageTaken - a.amount
              && forall j :: 0 <= j < |cs| && j != a.id ==> r[j] == cs[j]
    ensures a.DeleteCreature? ==>
              && |r| == |cs| + 1 && r[a.id] == a.deleted
              && (forall j :: 0 <= j < a.id ==> r[j] == cs[j])
              && (forall j :: a.id <= j < |cs| ==> r[j + 1] == cs[j])
  {
    match a
    case AddCreature(_) => cs[..|cs| - 1]
    case DamageCreature(id, amount) => cs[id := Damaged(cs[id], -amount)]
    case DeleteCreature(id, c) => cs[..id] + [c] + cs[id..]
  }

  /**
   * The action can be applied to `cs` and undone back to it: a delete must
   * remember the very creature it removes.
   */
  predicate Reversible(a: Action, cs: seq<Creature>)
  {
    Applicable(a, cs) && (a.DeleteCreature? ==> a.deleted == cs[a.id])
  }

  /** NewDeleteCreatureAction: delete `id`, remembering the creature there. */
  function NewDelete(cs: seq<Creature>, id: int): (a: Action)
    requires 0 <= id < |cs|
    ensures a.DeleteCreature? && a.id == id && Reversible(a, cs)
  {
    DeleteCreature(id, cs[id])
  }

  /** Undoing an action just applied gives back the list it was applied to. */
  lemma UndoAfterApply(a: Action, cs: seq<Creature>)
    requires Reversible(a, cs)
    ensures Undoable(a, Applied(a, cs)) && Undone(a, Applied(a, cs)) == cs
  {
    var r := Applied(a, cs);
    match a
    case AddCreature(c) =>
      assert r[..|r| - 1] == cs;
    case DamageCreature(id, amount) =>
      assert Undone(a, r)[id] == cs[id];
    case DeleteCreature(id, c) =>
      assert cs[..id] + [cs[id]] + cs[id + 1..] == cs;
  }

  /** Applying an action again after undoing it gives back the list it was undone from. */
  lemma ApplyAfterUndo(a: Action, cs: seq<Creature>)
    requires Reversible(a, cs)
    ensures Applicable(a, Undone(a, Applied(a, cs))) && Applied(a, Undone(a, Applied(a, cs))) == Applied(a, cs)
  {
    UndoAfterApply(a, cs);
  }

  /**
   * Undo restores the list after a delete exactly when the delete remembered
   * the creature at its index: remembering any other creature loses it.
   */
  lemma DeleteRestoresIff(cs: seq<Creature>, id: int, c: Creature)
    requires 0 <= id < |cs|
    ensures Undone(DeleteCreature(id, c), Applied(DeleteCreature(id, c), cs)) == cs <==> c == cs[id]
  {
    var a := DeleteCreature(id, c);
    if c == cs[id] {
      UndoAfterApply(a, cs);
    } else {
      assert Undone(a, Applied(a, cs))[id] == c;
    }
  }

  /** A delete keeps every other creature, each once: the list loses exactly the one at `id`. */
  lemma DeleteKeepsOthers(cs: seq<Creature>, id: int, c: Creature)
    requires 0 <= id < |cs|
    ensures multiset(Applied(DeleteCreature(id, c), cs)) + multiset{cs[id]} == multiset(cs)
  {
    assert cs == cs[..id] + [cs[id]] + cs[id + 1..];
  }
}
