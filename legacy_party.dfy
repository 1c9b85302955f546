/**
 * The older party of party.go: the same three edits of the creature list,
 * applied and undone on a Party record. Apply and the undo of an append or
 * of damage agree with the edits of party/actions.go; the undo of a delete
 * rebuilds the list around index `id - 1` instead of `id`, which loses a
 * creature (and indexes out of range for `id = 0`).
 */
module LegacyParty {
  import opened UndoBuffer
  import opened Rolls
  import opened Creatures
  import opened Encounter
  import Paths
  import Parties

  class Party {
    var Filename: string
    var Name: string
    const actions: Buffer<Action>
    var PreviousRolls: seq<RollResult>
    var LastCustomRoll: string
    var EncounterCreatures: seq<Creature>

    /** NewParty: a party saved as `name`.party.gob in `directory`, with nothing in it yet. */
    constructor NewParty(directory: string, name: string)
      ensures Filename == Paths.Join(directory, name + Parties.Suffix) && Name == name
      ensures fresh(actions) && fresh(actions.data) && actions.Valid()
      ensures actions.data.Length == Parties.Capacity && actions.Items == [] && actions.Redo == []
      ensures PreviousRolls == [] && LastCustomRoll == "" && EncounterCreatures == []
    {
      Filename := Paths.Join(directory, name + Parties.Suffix);
      Name := name;
      actions := new Buffer<Action>(Parties.Capacity);
      PreviousRolls := [];
      LastCustomRoll := "";
      EncounterCreatures := [];
    }
  }

  /** apply: the same edits as party/actions.go. */
  method ApplyAction(a: Action, p: Party)
    requires Applicable(a, p.EncounterCreatures)
    modifies p`EncounterCreatures
    ensures p.EncounterCreatures == Applied(a, old(p.EncounterCreatures))
  {
    match a
    case AddCreature(c) =>
      p.EncounterCreatures := p.EncounterCreatures + [c];
    case DamageCreature(id, amount) =>
      var c := p.EncounterCreatures[id];
      p.EncounterCreatures := p.EncounterCreatures[id := c.(DamageTaken := c.DamageTaken + amount)];
    case DeleteCreature(id, _) =>
      p.EncounterCreatures := p.EncounterCreatures[..id] + p.EncounterCreatures[id + 1..];
  }

  /** The delete's undo slices the list at `id - 1` and at `id`, so it needs `1 <= id <= |cs|`. */
  predicate UndoableAsWritten(a: Action, cs: seq<Creature>)
  {
    if a.DeleteCreature? then 1 <= a.id <= |cs| else Undoable(a, cs)
  }

  /**
   * What the older undo leaves: as Undone for an append or damage; for a
   * delete, the list before `id - 1`, the remembered creature, and the list
   * from `id` on, so the creature at `id - 1` is replaced rather than the
   * remembered one reinserted.
   */
  function UndoneAsWritten(a: Action, cs: seq<Creature>): (r: seq<Creature>)
    requires UndoableAsWritten(a, cs)
    ensures !a.DeleteCreature? ==> r == Undone(a, cs)
    ensures a.DeleteCreature? ==>
              && |r| == |cs| && r[a.id - 1] == a.deleted
              && forall j :: 0 <= j < |cs| && j != a.id - 1 ==> r[j] == cs[j]
  {
    match a
    case DeleteCreature(id, c) => cs[..id - 1] + [c] + cs[id..]
    case _ => Undone(a, cs)
  }

  /**
   * undo as party.go writes it: drop the last creature, take the damage
   * off, or join the list before `id - 1`, the remembered creature and the
   * list from `id`.
   */
  method UndoAction(a: Action, p: Party)
    requires UndoableAsWritten(a, p.EncounterCreatures)
    modifies p`EncounterCreatures
    ensures p.EncounterCreatures == UndoneAsWritten(a, old(p.EncounterCreatures))
  {
    match a
    case AddCreature(_) =>
      p.EncounterCreatures := p.EncounterCreatures[..|p.EncounterCreatures| - 1];
    case DamageCreature(id, amount) =>
      var c := p.EncounterCreatures[id];
      p.EncounterCreatures := p.EncounterCreatures[id := c.(DamageTaken := c.DamageTaken - amount)];
    case DeleteCreature(id, c) =>
      var firstPart := p.EncounterCreatures[..id - 1];
      var secondPart := p.EncounterCreatures[id..];
      p.EncounterCreatures := firstPart + [c];
      p.EncounterCreatures := p.EncounterCreatures + secondPart;
  }

  /** For an append or damage, the older undo takes the list back, as the newer one does. */
  lemma AddAndDamageUndoRestore(a: Action, cs: seq<Creature>)
    requires !a.DeleteCreature? && Reversible(a, cs)
    ensures UndoableAsWritten(a, Applied(a, cs)) && UndoneAsWritten(a, Applied(a, cs)) == cs
  {
    UndoAfterApply(a, cs);
  }

  /**
   * The older undo of a delete never takes the list back: the first
   * creature's delete cannot be undone at all, and any other delete's undo
   * leaves the list one shorter, without the creature just before `id`.
   */
  lemma DeleteUndoLoses(cs: seq<Creature>, id: int)
    requires 0 <= id < |cs|
    ensures id == 0 ==> !UndoableAsWritten(NewDelete(cs, id), Applied(NewDelete(cs, id), cs))
    ensures id >= 1 ==>
              && UndoableAsWritten(NewDelete(cs, id), Applied(NewDelete(cs, id), cs))
              && UndoneAsWritten(NewDelete(cs, id), Applied(NewDelete(cs, id), cs)) == cs[..id - 1] + cs[id..]
              && |UndoneAsWritten(NewDelete(cs, id), Applied(NewDelete(cs, id), cs))| == |cs| - 1
  {
    if id >= 1 {
      var a := NewDelete(cs, id);
      var r := Applied(a, cs);
      assert r == cs[..id] + cs[id + 1..];
      assert r[..id - 1] == cs[..id - 1] && r[id..] == cs[id + 1..];
      assert cs[..id - 1] + [cs[id]] + cs[id + 1..] == cs[..id - 1] + cs[id..];
    }
  }

  /** The smallest case: with two creatures, deleting the second and undoing leaves only it. */
  lemma TwoCreaturesLoseFirst(x: Creature, y: Creature)
    ensures UndoneAsWritten(NewDelete([x, y], 1), Applied(NewDelete([x, y], 1), [x, y])) == [y]
  {
    DeleteUndoLoses([x, y], 1);
  }
}
