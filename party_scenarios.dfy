/**
 * The behaviour party/party_test.go and party/actions_test.go check,
 * stated for every creature and roll result rather than for the fixed ones
 * the tests build: undo after apply, redo after undo, rolls newest first,
 * the custom roll, and deleting one of several creatures.
 */
module PartyScenarios {
  import opened Results
  import opened UndoBuffer
  import opened Rolls
  import opened Creatures
  import opened Encounter
  import opened Paths
  import opened Parties

  /** Apply, then Undo, takes any valid party's creature list back; Redo applies the action again. */
  method ApplyUndoRedo(p: Party, a: Action) returns (afterApply: seq<Creature>, afterUndo: seq<Creature>, afterRedo: seq<Creature>)
    requires p.Valid() && Reversible(a, p.EncounterCreatures)
    modifies p`EncounterCreatures, p`Past, p`Future, p.actions, p.actions.data
    ensures p.Valid()
    ensures afterApply == Applied(a, old(p.EncounterCreatures))
    ensures afterUndo == old(p.EncounterCreatures)
    ensures afterRedo == afterApply == p.EncounterCreatures
  {
    var e := p.Apply(Some(a));
    afterApply := p.Creatures();
    e := p.Undo();
    afterUndo := p.Creatures();
    e := p.Redo();
    afterRedo := p.Creatures();
  }

  /** TestBasicUndo: adding a creature and undoing leaves no creatures. */
  method BasicUndo(c: Creature) returns (afterApply: seq<Creature>, afterUndo: seq<Creature>, canRedo: bool)
    ensures afterApply == [c] && afterUndo == [] && canRedo
  {
    var p := new Party.New("", "");
    var e := p.Apply(Some(AddCreature(c)));
    afterApply := p.Creatures();
    e := p.Undo();
    afterUndo := p.Creatures();
    canRedo := p.CanRedo();
  }

  /** Undo and Redo on a new party fail with the buffer's errors. */
  method NothingToUndo() returns (undo: Option<PartyError>, redo: Option<PartyError>, nilApply: Option<PartyError>)
    ensures undo == Some(UndoFailure(NoElements))
    ensures redo == Some(RedoFailure(NoValidElementsRemaining))
    ensures nilApply == Some(NilAction)
  {
    var p := new Party.New("", "");
    undo := p.Undo();
    redo := p.Redo();
    nilApply := p.Apply(None);
  }

  /** TestDamageCreatureAction: 20 damage, then undone. */
  method DamageThenUndo(c: Creature) returns (damaged: int, undone: int)
    requires c.DamageTaken == 0
    ensures damaged == 20 && undone == 0
  {
    var p := new Party.New("", "");
    var e := p.Apply(Some(AddCreature(c)));
    e := p.Apply(Some(DamageCreature(0, 20)));
    damaged := p.Creatures()[0].DamageTaken;
    e := p.Undo();
    undone := p.Creatures()[0].DamageTaken;
  }

  /** TestDeleteOneOfMultipleCreatures: delete the third of four creatures, then undo. */
  method DeleteOneOfMultiple(c0: Creature, c1: Creature, c2: Creature, c3: Creature)
    returns (afterDelete: seq<Creature>, afterUndo: seq<Creature>)
    ensures afterDelete == [c0, c1, c3] && afterUndo == [c0, c1, c2, c3]
  {
    var p := new Party.New("", "");
    var e := p.Apply(Some(AddCreature(c0)));
    e := p.Apply(Some(AddCreature(c1)));
    e := p.Apply(Some(AddCreature(c2)));
    e := p.Apply(Some(AddCreature(c3)));
    assert p.Creatures() == [c0, c1, c2, c3];
    var a := p.DeleteCreatureAction(2);
    e := p.Apply(Some(a));
    afterDelete := p.Creatures();
    e := p.Undo();
    afterUndo := p.Creatures();
  }

  /** TestRolls: three rolls come back newest first. */
  method RollsNewestFirst(r1: RollResult, r2: RollResult, r3: RollResult) returns (rolls: seq<RollResult>)
    ensures rolls == [r3, r2, r1]
  {
    var p := new Party.New("", "");
    p.AddRoll(r1);
    p.AddRoll(r2);
    p.AddRoll(r3);
    rolls := p.Rolls();
  }

  /** TestCustomRoll: the custom roll set is the one read back. */
  method SetThenGet(s: string) returns (got: string)
    ensures got == s
  {
    var p := new Party.New("", "");
    p.SetCustomRoll(s);
    got := p.CustomRoll();
  }

  /** A new party's name is the name it was made with, also when that is guessed from its file name. */
  method NewThenName(directory: string, name: string) returns (got: string)
    ensures got == name
  {
    var p := new Party.New(directory, name);
    if name == "" {
      GuessedName(directory, name);
    }
    got := p.Name();
  }
}
