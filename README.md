# dnd core, modelled in Dafny

This project models the core of a small Dungeons & Dragons helper. It covers
four parts:

- **The dice engine.** `dice/roll.go` and `dice/diceroll.go`. It turns a roll
  string such as `3d8 + 2d6 - 2` into tokens, and then into a `Roll`. A `Roll`
  is a positive and a negative face-count map plus an offset. The engine can
  also produce a flat list of signed terms. It works out a roll's minimum and
  maximum, rolls the dice, and renders rolls and their results as text.
- **The bounded undo stack.** `undobuffer/buffer.go` is a circular buffer
  with Push, Pop, Unpop (redo) and Peek. The oldest entry is overwritten once
  the buffer is full.
- **The party.** `party/party.go` and `party/actions.go`. A party keeps its
  file name and name, its previous rolls, its custom roll, its players and
  initiatives, and its list of encounter creatures. Three reversible actions
  edit that list: add a creature, damage a creature, and delete a creature.
  The party applies each action through the undo stack, so it can be undone
  and redone.
- **The older root-package party and the creature.** `party.go` holds the
  older party and its own copies of the three actions. `creature/creature.go`
  creates a creature with rolled hit points.

Randomness is an input. Every operation that rolls dice takes a `stream:
seq<nat>` of raw draws. A die of `f` faces reads the next draw `x` as
`1 + x % f`, where the source calls `1 + rand.Intn(f)`. Strings are
`seq<char>`, and Go's `uint` and `int` values are unbounded `nat` and `int`.

Module layout:

- **`Results`**: `Result` and `Option`.
- **`Decimal`**: decimal digits, `strconv.Itoa` and `Atoi` on ASCII.
- **`Seqs`**: reversal, sums and joining.
- **`Paths`**: `filepath.Join` and `filepath.Base`.
- **`DiceSyntax`**: the tokeniser, the split into segments, and segment shapes.
- **`FaceCounts`**: `FaceCountMap`.
- **`Rolls`**: `Roll`, `ParseRollString`, `Min`, `Max` and `Simulate`.
- **`RollText`**: `Roll.String`.
- **`DrawText`**: result rendering.
- **`DiceRolls`**: `dice/diceroll.go`.
- **`UndoBuffer`** and **`BufferScenarios`**: the undo stack and its tests.
- **`Creatures`**: `creature/creature.go`.
- **`Encounter`**: the three actions as edits of a creature list.
- **`Parties`** and **`PartyScenarios`**: `party/party.go` and its tests.
- **`LegacyParty`**: the root `party.go`.

The undo stack is a class over an `array`. Ghost sequences `Items` (what Pop
returns, newest last) and `Redo` (what Unpop returns, next first) are tied to
the Go cursors by `Valid()`. The party is a class too. Its ghost `Past` and
`Future` hold the creature lists before each undoable action and after each
redoable one. `Valid()` chains them to the stored actions. That chain is how
Undo and Redo are proved to restore earlier states.

## Model

| member | source | states |
|---|---|---|
| DiceSyntax.TokeniseString | dice/roll.go:33-70 | The tokenising loop returns exactly what the recursive reference tokeniser `Tokenise` returns: digit runs become one Number each, `d`/`D` a Die, `+`/`-` a Sign, white space nothing. |
| DiceSyntax.LexSucceedsIff | dice/roll.go:50-67 | Tokenising succeeds if and only if every character is a digit, `d`, `D`, `+`, `-` or white space. |
| DiceSyntax.LexReportsFirstInvalid | dice/roll.go:63-65 | The error names the first character that is not part of a dice string. |
| DiceSyntax.DigitRunThen | dice/roll.go:38-52 | A maximal run of digits followed by any non-digit (a space included) becomes exactly one Number token holding the run's value, before that character's own tokens. |
| DiceSyntax.LexRender | dice/roll.go:33-70 | Tokenising the canonical text of any token list whose sign tokens all hold `+` or `-` (as every token the tokeniser makes does) gives that list back. |
| DiceSyntax.SegmentsShape | dice/roll.go:228-233 | Every segment cut between sign tokens is non-empty and holds no sign after its first token. |
| DiceSyntax.TermRoundTrip | dice/roll.go:235-274 | The segment reader accepts `[N]`, `[d, F]` and `[C, d, F]` and reads each back to the term it came from. |
| DiceSyntax.SignLedSegmentRejected | dice/roll.go:235-274 | A segment that starts with a sign token is rejected. |
| DiceSyntax.FlatLex | dice/roll.go:33-70 | Terms written with ` + `/` - ` separators tokenise to the terms' tokens with the sign tokens between them. |
| FaceCounts.Add | dice/roll.go:84-89 | `add(count, face)` raises that face's count by `count`, leaves every other count alone, and appends the face to `Faces` only when its count was 0. |
| FaceCounts.AddPreservesWellFormed | dice/roll.go:84-89 | With `count > 0`, `Faces` stays duplicate-free and equals the set of faces with a non-zero count. |
| FaceCounts.AddMerges | dice/roll.go:84-89 | `d6` added twice aggregates to `{6: 2}` with `Faces == [6]`. |
| FaceCounts.Min | dice/roll.go:115-120 | The loop over the counts returns the sum of all counts. |
| FaceCounts.Max | dice/roll.go:122-127 | The loop over the counts returns the sum of face × count. |
| FaceCounts.AddBounds | dice/roll.go:84-89 | Adding `count` dice of `face` raises Min by `count` and Max by `face × count`. |
| FaceCounts.MinLeMax | dice/roll.go:115-127 | Min ≤ Max whenever every face is at least 1. |
| FaceCounts.SortFacesDescending | dice/roll.go:91-93 | Sorting keeps the counts, orders `Faces` descending, and is a permutation of the old `Faces`. |
| FaceCounts.SortPreservesWellFormed | dice/roll.go:91-93 | Sorting keeps a well-formed map well-formed and keeps its Min and Max. |
| FaceCounts.DescendingUnique | dice/roll.go:91-93 | Two descending orders of the same faces are equal, so the sort's result does not depend on the sort algorithm. |
| FaceCounts.SimulateResult | dice/roll.go:134-148 | Sorts `Faces` descending, then draws `Counts[face]` values per face in that order; returns the sorted map, the rows of draws, and their sum. |
| FaceCounts.RowBounds | dice/roll.go:141-145 | The row drawn for a face has `count` draws, each in `[1, face]`, so its sum lies in `[count, face × count]`. |
| FaceCounts.RowsShape | dice/roll.go:137-146 | There is one row per face, each row has that face's count of draws, and each draw lies in `[1, face]`. |
| FaceCounts.SimulatedWithinBounds | dice/roll.go:134-148 | For a well-formed face-count map (every parsed roll's maps are, by Rolls.ParseWellFormed), the sum of a simulation lies between its Min and its Max. |
| Rolls.ParseRollString | dice/roll.go:215-294 | The start/end index loop returns exactly the reference parse: tokenise, cut at sign tokens, read each segment, and fold it into the roll. |
| Rolls.ApplySegment | dice/roll.go:234-281 | One segment: a number goes to the offset (subtracted after `-`); a die group goes to the positive or negative map, and groups with count 0 are dropped; other shapes return the matching error. |
| Rolls.FoldSucceedsIff | dice/roll.go:228-292 | Parsing the segments succeeds if and only if every segment has an accepted shape. |
| Rolls.ParseWellFormed | dice/roll.go:215-294 | A parsed roll's two maps are well-formed. |
| Rolls.LeadingSignRejected | dice/roll.go:226-233 | A token list that starts with a sign is rejected, because the first segment starts at token 0 (so `-d6` and `-5` are errors). |
| Rolls.ParseEmpty | dice/roll.go:221 | Any string of white space only, the empty string included, parses to the empty roll. |
| DiceSyntax.LexSpaces | dice/roll.go:63 | White space, of any length, tokenises to no tokens at all. |
| Rolls.FoldSigned | dice/roll.go:228-292 | Segments written after `+` go to the positive side and segments after `-` to the negative side, in order. |
| Rolls.Min | dice/roll.go:199-201 | `Positive.Min − Negative.Max + Offset`. |
| Rolls.Max | dice/roll.go:203-205 | `Positive.Max − Negative.Min + Offset`. |
| Rolls.MinLeMax | dice/roll.go:199-205 | A roll's Min ≤ Max whenever every face is at least 1. |
| Rolls.Sorted | dice/roll.go:135 | Simulating reorders both `Faces` lists in place and leaves the counts and the offset unchanged. |
| Rolls.Simulate | dice/roll.go:302-311 | The result keeps the sorted roll. The positive draws come first and the negative draws follow. `Sum = Σ positive draws − Σ negative draws + Offset`; for a well-formed roll (every parsed roll is, by Rolls.ParseWellFormed) it lies in `[Min, Max]`. |
| RollText.RenderRoundTrip | dice/roll.go:95-197 | A well-formed (every parsed roll is, by Rolls.ParseWellFormed) and readable roll parses back from its text to the same roll. A roll is readable when it has a positive part, or no negative part and an offset ≥ 0, and at most one negative face. |
| RollText.DiceRoundTrip | dice/roll.go:176-197 | For a well-formed, readable roll with positive dice (so at most one negative face, hence no brackets): groups joined by ` + `, negatives after ` - `, the offset as ` + N`/` - N`, read back, give the same counts, faces and offset. |
| RollText.OffsetRoundTrip | dice/roll.go:156-174 | A well-formed roll with no dice and an offset ≥ 0 renders its offset alone (nothing for 0), and that text reads back to the same roll; a negative offset renders as `-N`, which is rejected (RollText.UnreadableRejected). |
| RollText.OffsetTextItems | dice/roll.go:156-174 | After some positive dice, the offset text is the offset as one signed term: ` + N` when positive, ` - N` with N = −Offset when negative, nothing for 0. |
| RollText.NegativeTextItems | dice/roll.go:186-194 | After some positive dice and with at most one negative face, the negative part is that face's group written after ` - `, without brackets, or nothing when there are no negative dice. |
| RollText.MinusLedRejected | dice/roll.go:180-182 | A roll with only negative dice renders with a bare leading `-`, which the parser rejects. |
| RollText.BracketsRejected | dice/roll.go:186-194 | More than one negative face is rendered in brackets, which the parser rejects. |
| RollText.UnreadableRejected | dice/roll.go:176-197 | Every roll that is not readable renders to text the parser rejects, so for well-formed rolls readability is exactly when the round trip holds. |
| DrawText.SingleBucketRead | dice/roll.go:319-324 | A single face bucket is written as its draws joined by ` + ` with no brackets, which reads as a total equal to the sum of the draws. |
| DrawText.ResultsPlain | dice/roll.go:317-347 | Once its brackets are dropped, the text of filled buckets is every draw, bucket after bucket, joined by ` + `. |
| DrawText.SingleBucketPlain | dice/roll.go:319-324 | A single bucket is written without any bracket, whatever its number of draws. |
| DrawText.BucketBrackets | dice/roll.go:328-343 | Among several buckets, a bucket of exactly one draw has no bracket and any other bucket has exactly one `(` and one `)`. |
| DrawText.ResultsBrackets | dice/roll.go:325-346 | With several buckets, the text holds exactly as many `(` and as many `)` as there are buckets not of exactly one draw, the separators adding none. |
| DrawText.ResultsReadAsTotal | dice/roll.go:317-347 | Without its brackets, the text of any filled results reads as the total of all draws. |
| DrawText.NegativeDrawsMisread | dice/roll.go:349-360 | As written, `d20 - 2d6` rolled 15, 3, 4 has the sum 8 but renders as `15 - 3 + 4`, which reads as 16. |
| DrawText.IndividualReadsAsSum | dice/roll.go:349-360 | For a result with positive dice, filled positive buckets and a `Sum` equal to the positive draws minus the negative draws plus the offset (as Rolls.Simulate reports it): with each negative draw after its own ` - `, the rendered draws, once their brackets are dropped, read back as `Sum`. |
| DiceRolls.ParseDiceRollString | dice/diceroll.go:127-201 | The start/end index loop returns exactly the reference parse, one term per segment in input order. |
| DiceRolls.ReadSegment | dice/diceroll.go:146-188 | A bare number after `-` is negated. A die group records whether it follows `-`. Other shapes return the same errors as `dice/roll.go`. |
| DiceRolls.CollectTerms | dice/diceroll.go:140-200 | Parsing succeeds if and only if every segment has an accepted shape. The result has one term per segment, and term `i` is read from segment `i` with that segment's sign. |
| DiceRolls.SameGrammar | dice/diceroll.go:127-201 | This parser and `ParseRollString` accept exactly the same strings, and aggregating this parser's terms gives that parser's roll. |
| DiceRolls.LeadingSignRejected | dice/diceroll.go:138-145 | A token list that starts with a sign is rejected. |
| DiceRolls.SignLedRejected | dice/diceroll.go:127-201 | A string that starts with `+` or `-` is rejected. |
| DiceRolls.FollowerParts | dice/diceroll.go:80-111 | A negative group renders `- CdF` and a number `+ N` when N > 0 and `- abs(N)` otherwise. Sign and body give the term back. |
| DiceRolls.WrittenRoundTrip | dice/diceroll.go:80-201 | Terms led by a positive group, every later term carrying its own sign (a negative group or a number), rendered and joined by spaces, parse back to the same terms. |
| DiceRolls.SignedFirstRejected | dice/diceroll.go:80-201 | Terms led by a negative group or a number render to text the parser rejects. |
| DiceRolls.ValuesBounds | dice/diceroll.go:88-115 | A number yields `[value]`; a group yields exactly `count` draws, each in `[1, faces]`, all negated when negative. |
| DiceRolls.SimulateValue | dice/diceroll.go:88-99 | The draw loop and the negating loop return that term's values. |
| DiceRolls.SimulateAll | dice/diceroll.go:203-209 | The terms' values are concatenated in term order. |
| DiceRolls.AllValuesLength | dice/diceroll.go:203-209 | The concatenated values number the sum of the group counts plus one per number term. |
| DiceRolls.ReverseDiceRollResult | dice/diceroll.go:217-226 | Yields the input's elements from last to first, each exactly once. |
| Decimal.ParseFormat | dice/roll.go:41 | Reading back a number's decimal text gives the number. |
| UndoBuffer.Buffer.constructor | undobuffer/buffer.go:21-30 | A new buffer of `size` slots with every cursor at 0, holding nothing to pop or unpop. |
| UndoBuffer.Buffer.IsEmpty | undobuffer/buffer.go:100-102 | True exactly when there is nothing to pop. |
| UndoBuffer.Buffer.Len | undobuffer/buffer.go:90-98 | The number of entries Pop would return, in `[0, capacity]`, also across wraparound. |
| UndoBuffer.Buffer.CanPop | party/party.go:163-165 | True exactly when there is something to pop. |
| UndoBuffer.Buffer.CanUnpop | party/party.go:180-182 | True exactly when there is something to unpop. |
| UndoBuffer.Buffer.Peek | undobuffer/buffer.go:33-38 | The entry Pop would return, with no change; an error when empty. Here the slot before `nextSpace` is taken modulo the capacity. |
| UndoBuffer.Buffer.PeekAsWritten | undobuffer/buffer.go:33-38 | Reading `data[nextSpace-1]` gives the same result, but only when `nextSpace ≥ 1` for a non-empty buffer. |
| UndoBuffer.Buffer.IncrementNextSpace | undobuffer/buffer.go:107-122 | The cursor advances with wraparound. When the buffer was full, the lowest valid element follows it. The buffer becomes full when the cursor meets the lowest valid element. |
| UndoBuffer.Buffer.Push | undobuffer/buffer.go:41-46 | Stores the item and keeps only the newest `capacity` entries. It advances the cursor with wraparound, moves the lowest valid element when the buffer was full, sets `limit` to the cursor and forfeits redo. |
| UndoBuffer.Buffer.Pop | undobuffer/buffer.go:49-60 | On an empty buffer, an error and no change. Otherwise it returns the newest entry (LIFO), and that entry becomes the first to unpop. The buffer is then not full and can unpop. |
| UndoBuffer.Buffer.Unpop | undobuffer/buffer.go:64-74 | Returns exactly the entry last popped and puts it back. Once `limit` is reached, it errors and changes nothing. |
| UndoBuffer.NewestSnoc | undobuffer/buffer.go:40-46 | Keeping the newest `n` entries after each push is the same as keeping the newest `n` of the whole push history. |
| UndoBuffer.PopAll | undobuffer/buffer.go:89-98 | `Len()` equals the number of pops that succeed before the first error, they return the entries newest first, and the k-th of them leaves `Len()` at its starting value minus k + 1. |
| UndoBuffer.UnpopAll | undobuffer/buffer.go:64-74 | Repeated unpops replay the popped entries in push order until none remain. |
| BufferScenarios.NonWrapping | undobuffer/buffer_test.go:10-31 | Pop on an empty buffer errors; push, pop, unpop return the pushed value with the expected lengths. |
| BufferScenarios.UnpopOnceThenReadd | undobuffer/buffer_test.go:33-52 | A push after a pop forfeits redo, so the next unpop errors. |
| BufferScenarios.Wrapping | undobuffer/buffer_test.go:54-79 | With capacity 3, pushing 0, 1, 2, 3 and popping yields 3, 2, 1 and then an error. |
| BufferScenarios.WrapOverTwice | undobuffer/buffer_test.go:81-118 | With capacity 10, after pushing 0 to 25 `Len()` is 10 and only the last ten can be popped (25 down to 16), `Len()` falling from 9 to 0. A further pop errors and leaves `Len()` at 0. Unpop then replays 16 up to 25 and errors. Five pops and two unpops after that all succeed, and after a push unpop errors. |
| BufferScenarios.PartialReplay | undobuffer/buffer_test.go:105-117 | On the buffer holding 16 to 25 with nothing to unpop, five pops give 25 down to 21, two unpops give back 21 and 22, and after a push unpop errors. |
| BufferScenarios.PeekOutOfRange | undobuffer/buffer.go:33-38 | A buffer of 2 pushed twice is non-empty with `nextSpace == 0`, the state in which Peek as written reads index -1; the corrected Peek returns the newest entry. |
| Creatures.Create | creature/creature.go:19-26 | Keeps the type name, the creature name and the hit dice (with its faces sorted in place). Damage taken is 0. The rolled health is the `Sum` of one simulation drawn from the stream: the positive draws' total minus the negative draws' total plus the offset. For well-formed hit dice (every parsed roll is, by Rolls.ParseWellFormed) the rolled health lies in `[hitDice.Min(), hitDice.Max()]`. |
| Encounter.Applied | party/actions.go:22-57 | Add appends the creature. Damage adds the amount to creature `ID` only. Delete removes index `ID`, keeps the others in order, and shortens the list by one. |
| Encounter.Undone | party/actions.go:26-66 | Add's undo drops the last creature. Damage's undo subtracts the amount from creature `ID` only. Delete's undo reinserts the captured creature at `ID` and shifts the later ones up. |
| Encounter.NewDelete | party/actions.go:51-53 | Captures the creature at an index in range, and the action it builds can be applied and undone. |
| Encounter.UndoAfterApply | party/actions.go:10-66 | For every action whose index is in range, undo after apply restores the original list. |
| Encounter.ApplyAfterUndo | party/actions.go:10-15 | Applying again after an undo gives back the applied list. |
| Encounter.DeleteRestoresIff | party/actions.go:51-66 | Undoing a delete restores the list if and only if the captured creature is the one that was at `ID`. |
| Encounter.DeleteKeepsOthers | party/actions.go:55-57 | Delete removes exactly one copy of the creature at `ID` and keeps every other creature. |
| Parties.Party.New | party/party.go:100-113 | The file is `directory/name.party.gob`, and the name is `name`. The undo buffer of capacity 64 is empty, and every list is empty. |
| Parties.GuessedName | party/party.go:129-137 | For a name with no slash, the base of the joined file name is long enough, and stripping `.party.gob` from it gives the name back. |
| Parties.Party.Name | party/party.go:129-137 | Returns the stored name if non-empty. Otherwise it returns the file's base without `.party.gob` and caches it. |
| Parties.Party.Apply | party/party.go:139-147 | A nil action gives an error and changes nothing. Otherwise the action is pushed (the newest 64 kept, redo cleared), the creature list becomes the applied list, and the old list is remembered. |
| Parties.Party.Undo | party/party.go:149-161 | On an empty buffer, the buffer's error and no change. Otherwise the newest action is popped and undone: the list returns to the state before that action was applied, and the action becomes the next to redo. |
| Parties.Party.CanUndo | party/party.go:163-165 | True exactly when an action can be undone. |
| Parties.Party.Redo | party/party.go:167-178 | With nothing to redo, the buffer's error. Otherwise the next action is unpopped and applied again, giving back the list that followed it. |
| Parties.Party.CanRedo | party/party.go:180-182 | True exactly when an action can be redone. |
| Parties.Party.SetCustomRoll | party/party.go:184-192 | `CustomRoll()` then returns the roll just set. |
| Parties.Party.Rolls | party/party.go:194-201 | Element `i` is `PreviousRolls[len-1-i]`, the stored rolls newest first. |
| Parties.Party.AddRoll | party/party.go:203-206 | Appends the roll. |
| Parties.Party.DeleteCreatureAction | party/party.go:213-216 | For an index in range, a delete action for that index that can be applied and undone. |
| Parties.Party.PlayerInitiatives | party/party.go:218-228 | One entry per player, pairing index `i` of the players, their initiative flags and their initiative rolls. |
| Parties.ApplyAction | party/actions.go:22-57 | The Go statements of each `apply` produce the applied list. |
| Parties.UndoAction | party/actions.go:26-66 | The Go statements of each `undo` produce the undone list; for a delete, append a gap, shift up, and store the captured creature. |
| PartyScenarios.ApplyUndoRedo | party/party.go:139-178 | For any valid party and action in range, Apply, Undo and Redo give the applied list, the original list, and the applied list again. |
| PartyScenarios.BasicUndo | party/party_test.go:70-78 | Adding a creature and undoing leaves no creatures, with redo available. |
| PartyScenarios.NothingToUndo | party/party.go:139-178 | On a new party, Undo and Redo return the buffer's errors and Apply(nil) returns its error. |
| PartyScenarios.DamageThenUndo | party/actions_test.go:20-30 | 20 damage shows as 20 and is undone to 0. |
| PartyScenarios.DeleteOneOfMultiple | party/actions_test.go:43-55 | Deleting the third of four creatures leaves the other three in order, and undo restores all four. |
| PartyScenarios.RollsNewestFirst | party/party_test.go:80-90 | Three rolls come back newest first. |
| PartyScenarios.SetThenGet | party/party_test.go:92-96 | The custom roll set is the one read back. |
| PartyScenarios.NewThenName | party/party.go:100-137 | A new party's name is the name it was made with, including the empty name guessed from the file. |
| Paths.BaseOfJoin | party/party.go:133 | The base of a directory joined with a slash-free file name is that file name. |
| LegacyParty.Party.NewParty | party.go:85-94 | The file is `directory/name.party.gob`, and the name is `name`. The undo buffer of capacity 64 is empty, and the lists are empty. |
| LegacyParty.ApplyAction | party.go:30-63 | The older `apply` statements produce the same applied list as `party/actions.go`. |
| LegacyParty.UndoneAsWritten | party.go:65-70 | The older delete undo keeps the length, puts the captured creature at `id-1`, and keeps every other position. |
| LegacyParty.UndoAction | party.go:34-70 | The older `undo` statements produce `UndoneAsWritten`. |
| LegacyParty.AddAndDamageUndoRestore | party.go:18-49 | For add and damage, the older undo restores the list as the doc comment promises. |
| LegacyParty.DeleteUndoLoses | party.go:65-70 | The older delete undo never restores the list. With `id = 0` it cannot run at all. For `id ≥ 1` it leaves the list one shorter, without the creature at `id-1`. |
| LegacyParty.TwoCreaturesLoseFirst | party.go:65-70 | With creatures `[x, y]`, deleting `y` and undoing leaves `[y]`. |

## Left out

- Gob persistence and the file system: `Save`, `Load` and `LoadParty` are I/O through a library serialiser.
- `math/rand`: replaced by the `stream` input; a die of `f` faces reads its draw as `1 + x % f`, and each simulation requires the stream to hold at least as many values as it draws.
- The goroutine and channel of `ReverseRollResultSlice` and `ReverseDiceRollResult`: only the reversed sequence they yield is modelled (`Seqs.YieldReversed`, `DiceRolls.ReverseDiceRollResult`).
- Non-ASCII digits: `unicode.IsNumber` accepts them and `strconv.Atoi` then panics; the tokeniser here treats only `0`-`9` as digits.
- Integer widths: overflow in `Atoi` and in the `uint`/`int` conversions is not modelled; counts, faces and offsets are unbounded.
- UTF-8: the tokeniser works on characters; white space is the set `unicode.IsSpace` accepts.
- Pointers: creatures, rolls and actions are values, so aliasing between a creature captured by a delete action and the live list is not modelled; damage is a functional update of one list entry.
- `filepath.Clean`: `Paths.Join` inserts one separator and does not rewrite `..`, `.` or repeated slashes; `Paths.Base` strips trailing slashes and gives `.` for the empty path, as `filepath.Base` does.
- The type assertion to `ReversibleAction` in Undo and Redo: actions are a closed datatype and every stored action is reversible, so that error branch has no counterpart.
- Parties.Party.Apply: requires the action's index to be in range for the current list, and a delete to carry the creature found at its index (`Encounter.Reversible`); the Go code trusts its caller, panics on an out-of-range index, and a hand-built delete carrying another creature would make undo restore that one. Every delete in the source is built by `NewDeleteCreatureAction` (party/actions.go:51-53), which captures the creature at the index (`Encounter.NewDelete`).
- Encounter.Applied, Encounter.Undone, Parties.ApplyAction, Parties.UndoAction, LegacyParty.ApplyAction and LegacyParty.UndoAction: require the index to be in range (`Applicable`, `Undoable`, `UndoableAsWritten`); Go indexes the slice without a check and would panic.
- Parties.UndoAction: Go's `nil` gap in the delete undo is written as a copy of the last creature, since the gap is overwritten in the same call.
- `testingParty` in party/party_test.go uses a buffer of 4; the scenarios use `New` (capacity 64) and never push more than four actions.
- `Player`: its definition is not part of this model; only its `Name`, the field `PlayerInitiatives` reads, is kept.
- Parties.Party.PlayerInitiatives: requires the initiative slices to be at least as long as the players, which the Go code indexes without a check.
- `CanPop` and `CanUnpop`: called at party/party.go:164 and party/party.go:181 but not defined in undobuffer/buffer.go; the model reads them as "not empty" and as the `canUnpop` flag.
- The comment at dice/roll.go:207-214 lists `-d6` as input to read; the code rejects any leading sign and the model follows the code (`Rolls.LeadingSignRejected`, `RollText.MinusLedRejected`).
- `CustomRoll` and `Creatures` on the party are plain field reads; their behaviour is stated through `Parties.Party.SetCustomRoll` and the party scenarios.
- Rolls.Simulate: requires every face with a non-zero count to be at least 1, because `rand.Intn(0)` panics in the source; Creatures.Create inherits this.
- FaceCounts.SimulateResult, FaceCounts.DrawFaces and FaceCounts.DrawRow: require every face with a non-zero count to be at least 1 (`Drawable`), because `rand.Intn(0)` at dice/roll.go:142 panics.
- DiceRolls.SimulateValue and DiceRolls.SimulateAll: require every term with dice to have at least one face (`Rollable`), because `rand.Intn(0)` at dice/diceroll.go:91 panics.
- UndoBuffer.Buffer.Push: requires a capacity of at least 1; on a `NewBuffer(0)` the Go `Push` writes to an empty slice (undobuffer/buffer.go:42) and panics. The party builds its buffer with capacity 64.
- Parties.Party.Name: requires, when no name is stored, a file base at least as long as `.party.gob`; the Go slice at party/party.go:134 panics on a shorter one. Every party made by `New` has such a file name.
- In-place sorting: `sort.Slice` reorders the roll's shared `Faces` slice; the model returns the sorted map (`Rolls.Sorted`, kept in the result and in the creature's hit dice) instead of mutating it.
- Text renderings (`FaceCounts.String`, `RollText.RollString`, `RollText.StringOffset`, `RollText.NegativeString`, `DiceRolls.String`, `DrawText.ResultsString`, `DrawText.IndividualRollsString` and its corrected form `DrawText.IndividualRollsText`) are functions whose meaning is stated by the round-trip and reading lemmas in the table rather than by contracts of their own.

## Findings

| source | as written | input that shows it | evidently intended | confidence | as-written member | corrected member |
|---|---|---|---|---|---|---|
| party.go:65-70 | The delete undo rebuilds the list from `[:id-1]`, the captured creature and `[id:]` | Creatures `[x, y]`: delete `id = 1`, then undo; the result is `[y]`. With `id = 0`, `[:-1]` is out of range | Reinsert the captured creature at `id`, restoring `[x, y]` (the doc comment at party.go:19-20) | not executed | LegacyParty.DeleteUndoLoses | Encounter.UndoAfterApply |
| undobuffer/buffer.go:33-38 | Peek reads `data[nextSpace-1]` | A buffer of 2 after two pushes: `nextSpace == 0` and non-empty, so Peek reads index -1 | Read the slot before `nextSpace` round the end of the array, the entry Pop would return | not executed | UndoBuffer.Buffer.PeekAsWritten | UndoBuffer.Buffer.Peek |
| dice/roll.go:349-360 | The negative buckets are written after one ` - ` and joined by ` + ` | `d20 - 2d6` rolled 15, 3, 4: the sum is 8, and the text `15 - 3 + 4` reads as 16 | Each negative draw is subtracted, so the text reads as the sum | not executed | DrawText.NegativeDrawsMisread | DrawText.IndividualReadsAsSum |
