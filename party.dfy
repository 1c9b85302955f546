/**
 * party/party.go and the apply/undo side of party/actions.go: a party's
 * players, dice rolls and encounter creatures, with every edit of the
 * creature list pushed onto a bounded undo buffer so that it can be undone
 * and redone.
 *
 * The ghost history says what the buffer's actions mean: Past holds the
 * creature list before each action that can be undone (oldest first), and
 * Future the list after each action that can be redone (next first).
 */
module Parties {
  import opened Results
  import opened Seqs
  import opened Paths
  import opened UndoBuffer
  import opened Rolls
  import opened Creatures
  import opened Encounter

  /** The number of actions a new party can undo. */
  const Capacity := 64

  /** What a party's save file name ends with. */
  const Suffix := ".party.gob"

  /** A player; only the name is used here. */
  datatype Player = Player(Name: string)

  /** A creature as one encounter sees it: its name, initiative dice and initiative. */
  datatype EncounterCreature = EncounterCreature(Name: string, InitiativeDice: Roll, Initiative: int)

  /** One line of the initiative table. */
  datatype CreatureInitiative = CreatureInitiative(Name: string, HasInitiative: bool, Initiative: int)

  /** Apply of no action, and the buffer's errors when there is nothing to undo or redo. */
  datatype PartyError = NilAction | UndoFailure(BufferError) | RedoFailure(BufferError)

  /**
   * The name Name guesses from a party's file name is the name the party
   * was made with, when that name has no separator in it.
   */
  lemma GuessedName(directory: string, name: string)
    requires NoSlash(name)
    ensures |Base(Paths.Join(directory, name + Suffix))| >= |Suffix|
    ensures Base(Paths.Join(directory, name + Suffix))[..|Base(Paths.Join(directory, name + Suffix))| - |Suffix|] == name
  {
    var file := name + Suffix;
    assert NoSlash(file) by {
      forall i | 0 <= i < |file| ensures file[i] != '/' {
        if i >= |name| {
          assert file[i] == Suffix[i - |name|];
        }
      }
    }
    BaseOfJoin(directory, file);
    assert file[..|file| - |Suffix|] == name;
  }

  // ---------------------------------------------------------------------
  // The history of actions

  /**
   * `acts[i]` takes the creature list `states[i]` to `states[i + 1]`, and
   * can be undone there.
   */
  ghost predicate Chain(acts: seq<Action>, states: seq<seq<Creature>>)
  {
    && |states| == |acts| + 1
    && forall i :: 0 <= i < |acts| ==> Reversible(acts[i], states[i]) && Applied(acts[i], states[i]) == states[i + 1]
  }

  /** A chain extended by one more reversible action. */
  lemma ChainSnoc(acts: seq<Action>, states: seq<seq<Creature>>, a: Action)
    requires Chain(acts, states) && Reversible(a, states[|states| - 1])
    ensures Chain(acts + [a], states + [Applied(a, states[|states| - 1])])
  {
    var acts', states' := acts + [a], states + [Applied(a, states[|states| - 1])];
    forall i | 0 <= i < |acts'|
      ensures Reversible(acts'[i], states'[i]) && Applied(acts'[i], states'[i]) == states'[i + 1]
    {
      if i < |acts| {
        assert acts'[i] == acts[i] && states'[i] == states[i] && states'[i + 1] == states[i + 1];
      }
    }
  }

  /** A chain started one action earlier. */
  lemma ChainCons(a: Action, s: seq<Creature>, acts: seq<Action>, states: seq<seq<Creature>>)
    requires Chain(acts, states) && Reversible(a, s) && Applied(a, s) == states[0]
    ensures Chain([a] + acts, [s] + states)
  {
    var acts', states' := [a] + acts, [s] + states;
    forall i | 0 <= i < |acts'|
      ensures Reversible(acts'[i], states'[i]) && Applied(acts'[i], states'[i]) == states'[i + 1]
    {
      if i > 0 {
        assert acts'[i] == acts[i - 1] && states'[i] == states[i - 1] && states'[i + 1] == states[i];
      }
    }
  }

  /** The last `|acts| - k` actions of a chain form a chain. */
  lemma ChainDrop(acts: seq<Action>, states: seq<seq<Creature>>, k: nat)
    requires Chain(acts, states) && k <= |acts|
    ensures Chain(acts[k..], states[k..])
  {
    forall i | 0 <= i < |acts| - k
      ensures Reversible(acts[k..][i], states[k..][i]) && Applied(acts[k..][i], states[k..][i]) == states[k..][i + 1]
    {
      assert acts[k..][i] == acts[k + i] && states[k..][i] == states[k + i] && states[k..][i + 1] == states[k + i + 1];
    }
  }

  /** The first `k` actions of a chain form a chain. */
  lemma ChainTake(acts: seq<Action>, states: seq<seq<Creature>>, k: nat)
    requires Chain(acts, states) && k <= |acts|
    ensures Chain(acts[..k], states[..k + 1])
  {
  }

  /** Keeping the newest `n` actions keeps the newest `n` states before them. */
  lemma ChainNewest(acts: seq<Action>, states: seq<seq<Creature>>, s: seq<Creature>, n: nat)
    requires Chain(acts, states + [s]) && n >= 1
    ensures Chain(Newest(acts, n), Newest(states, n) + [s])
  {
    var all := states + [s];
    if |acts| > n {
      var k := |acts| - n;
      ChainDrop(acts, all, k);
      assert Newest(acts, n) == acts[k..];
      assert Newest(states, n) + [s] == all[k..];
    }
  }

  // ---------------------------------------------------------------------
  // The party

  class Party {
    var Filename: string
    var PartyName: string
    const actions: Buffer<Action>
    var Players: seq<Player>
    var PreviousRolls: seq<RollResult>
    var LastCustomRoll: string
    var EncounterCreatures: seq<Creature>
    var PlayerHasInitiatives: seq<bool>
    var PlayerInitiativeRolls: seq<int>
    var CurrentEncounterCreatures: seq<EncounterCreature>

    /** The creature list before each action that can be undone, oldest first. */
    ghost var Past: seq<seq<Creature>>
    /** The creature list after each action that can be redone, next first. */
    ghost var Future: seq<seq<Creature>>

    /**
     * The buffer is sound and has room; its actions that can be undone lead
     * through Past to the current creature list, and those that can be
     * redone lead from it through Future.
     */
    ghost predicate Valid()
      reads this, actions, actions.data
    {
      && actions.Valid() && actions.data.Length > 0
      && Chain(actions.Items, Past + [EncounterCreatures])
      && Chain(actions.Redo, [EncounterCreatures] + Future)
    }

    /** New: a party saved as `name`.party.gob in `directory`, with nothing in it yet. */
    constructor New(directory: string, name: string)
      ensures Valid() && fresh(actions) && fresh(actions.data)
      ensures Filename == Paths.Join(directory, name + Suffix) && PartyName == name
      ensures actions.data.Length == Capacity && actions.Items == [] && actions.Redo == []
      ensures Players == [] && PreviousRolls == [] && LastCustomRoll == "" && EncounterCreatures == []
      ensures PlayerHasInitiatives == [] && PlayerInitiativeRolls == [] && CurrentEncounterCreatures == []
    {
      Filename := Paths.Join(directory, name + Suffix);
      PartyName := name;
      actions := new Buffer<Action>(Capacity);
      Players := [];
      PreviousRolls := [];
      LastCustomRoll := "";
      EncounterCreatures := [];
      PlayerHasInitiatives := [];
      PlayerInitiativeRolls := [];
      CurrentEncounterCreatures := [];
      Past, Future := [], [];
    }

    /**
     * Name: the stored name, or else the save file's name without its
     * suffix, which is then stored. The file name must be at least as long
     * as the suffix.
     */
    method Name() returns (name: string)
      requires PartyName == "" ==> |Base(Filename)| >= |Suffix|
      modifies this`PartyName
      ensures old(PartyName) != "" ==> name == old(PartyName)
      ensures old(PartyName) == "" ==> name == Base(Filename)[..|Base(Filename)| - |Suffix|]
      ensures PartyName == name
    {
      if PartyName != "" {
        return PartyName;
      }
      var file := Base(Filename);
      var nameGuess := file[..|file| - |Suffix|];
      PartyName := nameGuess;
      return nameGuess;
    }

    /**
     * Apply: no action is an error and changes nothing; otherwise the
     * action is pushed onto the buffer and applied to the creature list.
     */
    method Apply(action: Option<Action>) returns (err: Option<PartyError>)
      requires Valid()
      requires action.Some? ==> Reversible(action.value, EncounterCreatures)
      modifies this`EncounterCreatures, this`Past, this`Future, actions, actions.data
      ensures Valid()
      ensures action.None? ==> err == Some(NilAction) && unchanged(this, actions, actions.data)
      ensures action.Some? ==>
                && err == None
                && EncounterCreatures == Applied(action.value, old(EncounterCreatures))
                && actions.Items == Newest(old(actions.Items) + [action.value], actions.data.Length)
                && actions.Redo == []
                && Past[|Past| - 1] == old(EncounterCreatures)
    {
      if action.None? {
        return Some(NilAction);
      }
      var a := action.value;
      ghost var before, items, n := EncounterCreatures, actions.Items, actions.data.Length;
      actions.Push(a);
      ApplyAction(a, this);
      ChainSnoc(items, Past + [before], a);
      ChainNewest(items + [a], Past + [before], EncounterCreatures, n);
      Past := Newest(Past + [before], n);
      Future := [];
      return None;
    }

    /**
     * Undo: pop the newest action and undo it, which gives back the creature
     * list it was applied to; the buffer's error, and no change, when there
     * is nothing to undo.
     */
    method Undo() returns (err: Option<PartyError>)
      requires Valid()
      modifies this`EncounterCreatures, this`Past, this`Future, actions
      ensures Valid()
      ensures old(actions.Items) == [] ==> err == Some(UndoFailure(NoElements)) && unchanged(this, actions)
      ensures old(actions.Items) != [] ==>
                var last := old(actions.Items)[|old(actions.Items)| - 1];
                && err == None
                && EncounterCreatures == old(Past)[|old(Past)| - 1]
                && Reversible(last, EncounterCreatures)
                && Applied(last, EncounterCreatures) == old(EncounterCreatures)
                && actions.Items == old(actions.Items)[..|old(actions.Items)| - 1]
                && actions.Redo == [last] + old(actions.Redo)
    {
      ghost var items, states, redo := actions.Items, Past + [EncounterCreatures], actions.Redo;
      var r := actions.Pop();
      if r.Failure? {
        return Some(UndoFailure(r.error));
      }
      var a := r.value;
      ghost var k := |items| - 1;
      assert a == items[k];
      assert states[k + 1] == EncounterCreatures;
      assert Reversible(a, states[k]) && Applied(a, states[k]) == states[k + 1];
      UndoAfterApply(a, states[k]);
      ghost var after := EncounterCreatures;
      UndoAction(a, this);
      ChainTake(items, states, k);
      assert states[..k + 1] == Past[..k] + [EncounterCreatures];
      ChainCons(a, EncounterCreatures, redo, [after] + Future);
      Past, Future := Past[..k], [after] + Future;
      return None;
    }

    /** CanUndo: Undo has an action to undo. */
    function CanUndo(): (r: bool)
      reads this, actions, actions.data
      requires Valid()
      ensures r <==> actions.Items != []
    {
      actions.CanPop()
    }

    /**
     * Redo: bring back the most recently undone action and apply it again,
     * which gives back the creature list it had made; the buffer's error,
     * and no change, when there is nothing to redo.
     */
    method Redo() returns (err: Option<PartyError>)
      requires Valid()
      modifies this`EncounterCreatures, this`Past, this`Future, actions
      ensures Valid()
      ensures old(actions.Redo) == [] ==> err == Some(RedoFailure(NoValidElementsRemaining)) && unchanged(this, actions)
      ensures old(actions.Redo) != [] ==>
                var next := old(actions.Redo)[0];
                && err == None
                && EncounterCreatures == Applied(next, old(EncounterCreatures))
                && EncounterCreatures == old(Future)[0]
                && actions.Items == old(actions.Items) + [next]
                && actions.Redo == old(actions.Redo)[1..]
    {
      ghost var items, redo, states := actions.Items, actions.Redo, [EncounterCreatures] + Future;
      ghost var before := EncounterCreatures;
      var r := actions.Unpop();
      if r.Failure? {
        return Some(RedoFailure(r.error));
      }
      var a := r.value;
      assert a == redo[0] && Reversible(a, before) && Applied(a, before) == states[1];
      ApplyAction(a, this);
      ChainSnoc(items, Past + [before], a);
      ChainDrop(redo, states, 1);
      assert states[1..] == Future;
      Past, Future := Past + [before], Future[1..];
      return None;
    }

    /** CanRedo: Redo has an action to bring back. */
    function CanRedo(): (r: bool)
      reads this, actions, actions.data
      requires Valid()
      ensures r <==> actions.Redo != []
    {
      actions.CanUnpop()
    }

    /** CustomRoll: the last text typed as a custom roll. */
    function CustomRoll(): string
      reads this
    {
      LastCustomRoll
    }

    /** SetCustomRoll: remember the text typed as a custom roll. */
    method SetCustomRoll(roll: string)
      modifies this`LastCustomRoll
      ensures CustomRoll() == roll
    {
      LastCustomRoll := roll;
    }

    /** Rolls: the rolls so far, most recent first. */
    method Rolls() returns (rolls: seq<RollResult>)
      ensures |rolls| == |PreviousRolls|
      ensures forall i :: 0 <= i < |rolls| ==> rolls[i] == PreviousRolls[|PreviousRolls| - 1 - i]
      ensures rolls == Reversed(PreviousRolls)
    {
      var n := |PreviousRolls|;
      var r := new RollResult[n];
      for i := 0 to n
        invariant forall k :: n - i <= k < n ==> r[k] == PreviousRolls[n - 1 - k]
      {
        r[n - 1 - i] := PreviousRolls[i];
      }
      rolls := r[..];
      forall k | 0 <= k < n
        ensures rolls[k] == Reversed(PreviousRolls)[k]
      {
        ReversedAt(PreviousRolls, k);
      }
    }

    /** AddRoll: keep the result of a roll. */
    method AddRoll(roll: RollResult)
      modifies this`PreviousRolls
      ensures PreviousRolls == old(PreviousRolls) + [roll]
    {
      PreviousRolls := PreviousRolls + [roll];
    }

    /** Creatures: the encounter's creature list. */
    function Creatures(): seq<Creature>
      reads this
    {
      EncounterCreatures
    }

    /** DeleteCreatureAction: an action deleting creature `id` that Undo can reverse. */
    function DeleteCreatureAction(id: int): (a: Action)
      reads this
      requires 0 <= id < |EncounterCreatures|
      ensures a.DeleteCreature? && a.id == id && Reversible(a, EncounterCreatures)
    {
      NewDelete(EncounterCreatures, id)
    }

    /**
     * PlayerInitiatives: one line per player, pairing the player's name with
     * the entries at the same index of the two initiative lists, which must
     * be at least as long as the players'.
     */
    method PlayerInitiatives() returns (initiatives: seq<CreatureInitiative>)
      requires |PlayerHasInitiatives| >= |Players| && |PlayerInitiativeRolls| >= |Players|
      ensures |initiatives| == |Players|
      ensures forall i :: 0 <= i < |Players| ==>
                initiatives[i] == CreatureInitiative(Players[i].Name, PlayerHasInitiatives[i], PlayerInitiativeRolls[i])
    {
      var r := new CreatureInitiative[|Players|];
      for i := 0 to |Players|
        invariant forall k :: 0 <= k < i ==>
                    r[k] == CreatureInitiative(Players[k].Name, PlayerHasInitiatives[k], PlayerInitiativeRolls[k])
      {
        r[i] := CreatureInitiative(Players[i].Name, PlayerHasInitiatives[i], PlayerInitiativeRolls[i]);
      }
      initiatives := r[..];
    }
  }

  // ---------------------------------------------------------------------
  // The actions' apply and undo, on a party's creature list

  /** apply: append, add damage in place, or cut the creature at `id` out. */
  method ApplyAction(a: Action, p: Party)
    requires Applicable(a, p.EncounterCreatures)
    modifies p`EncounterCreatures
    ensures p.EncounterCreatures == Applied(a, old(p.EncounterCreatures))
  {
    match a
    case AddCreature(c) =>
      p.EncounterCreatures := p.EncounterCreatures + [c];
    case DamageCreature(id, amount) =>
      var c := p.EncounterCreatures[id];
      p.EncounterCreatures := p.EncounterCreatures[id := c.(DamageTaken := c.DamageTaken + amount)];
    case DeleteCreature(id, _) =>
      p.EncounterCreatures := p.EncounterCreatures[..id] + p.EncounterCreatures[id + 1..];
  }

  /**
   * undo: drop the last creature, take the damage off again, or reinsert
   * the deleted creature by growing the list by a gap at the end, moving
   * everything from `id` one place along and storing the creature at `id`
   * (the gap's content is overwritten, so any creature will do for it).
   */
  method UndoAction(a: Action, p: Party)
    requires Undoable(a, p.EncounterCreatures)
    modifies p`EncounterCreatures
    ensures p.EncounterCreatures == Undone(a, old(p.EncounterCreatures))
  {
    match a
    case AddCreature(_) =>
      p.EncounterCreatures := p.EncounterCreatures[..|p.EncounterCreatures| - 1];
    case DamageCreature(id, amount) =>
      var c := p.EncounterCreatures[id];
      p.EncounterCreatures := p.EncounterCreatures[id := c.(DamageTaken := c.DamageTaken - amount)];
    case DeleteCreature(id, c) =>
      ghost var cs0 := p.EncounterCreatures;
      var cs := p.EncounterCreatures + [c];
      cs := cs[..id + 1] + cs[id..|cs| - 1];
      cs := cs[id := c];
      assert cs == cs0[..id] + [c] + cs0[id..];
      p.EncounterCreatures := cs;
  }
}
