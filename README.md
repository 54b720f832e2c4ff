# Raider.IO character import — a verified model

This project models the import-and-reconcile pipeline of the
`useRaiderIoImport` store of mythic-utils. The pipeline fetches a
character's Mythic+ runs from Raider.IO and keeps, per dungeon and weekly
modifier (Tyrannical or Fortified), the best-scoring run. It writes those
best runs into the player store's "original" and "hypothetical" timing
tables and archives the character. It warns about par times that differ
from the dungeon catalog, and about scores that differ from the locally
calculated ones. The model also covers the two status flags, `loading` and
`error`.

Modules, in dependency order:

- `Domain` (domain.dfy): weekly modifiers, runs, timing entries, the
  dungeon catalog (a sequence of short name / plus-one par time, in the
  catalog object's key order), the two kinds of warning and `Result`.
- `Classifier` (classifier.dfy): `getWeekFromAffixesList`.
- `BestRuns` (selection.dfy): `createEmptyDungeonTimingObject`, and the
  `allRuns.forEach` fold of `runImport` with its par-time check. It holds
  the specification functions (`Step`, `Fold`, `Selection`,
  `TimerWarnings`), the imperative `RunImport` proved equal to them, and
  the lemmas about the selection.
- `Scores` (scores.dfy): `checkScores`, as a loop that returns the list of
  warnings, proved equal to `ScoreMismatches`.
- `Store` (store.dfy): the player store's tables and current character as
  a class, its `applyImport`, and the character history archive.
- `Import` (import.dfy): the `loading` / `error` flags, `dismissError` and
  `importCharacter`.
- `Scenarios` (scenarios.dfy): worked single-run examples.

Inputs that stand for code not in this model:

- `~/utils/dungeons` is not part of this model. The catalog is a
  parameter.
- The fetch and JSON decoding are a `FetchOutcome`: a failure or a decoded
  `Profile`.
- Whether `characterHistory.save` succeeds is the boolean `archiveAccepts`.
- The store's calculated `originalScores` are passed in. They stand for the scores as `checkScores` reads them, after the merge; the stated contract holds for any such map.
- The score type's `.equals` is a function parameter `equals`.

Behaviour of the code that the model keeps:

- On success, `importCharacter` clears `loading` but does not touch
  `error`. An error raised by an earlier import and never dismissed is
  still set afterwards.
- A failed import leaves `loading` true, because it was set to true at the
  start.
- The score check walks the entries of the new table. These are the
  catalog dungeons in catalog order, so the model walks the catalog.

## Model

| member | source | states |
|---|---|---|
| `Domain.Plus1` | composables/useRaiderIoImport.ts:61 | the par time looked up is the `plus1` of a catalog entry with that short name |
| `Domain.ByWeek.Set` | composables/useRaiderIoImport.ts:51 | writing one modifier's entry of a dungeon record sets that entry and keeps the other modifier's entry |
| `Classifier.FindAffix` | composables/useRaiderIoImport.ts:153 | `find` returns an affix exactly when one with the id exists, and then it is the first such affix |
| `Classifier.WeekFromAffixes` | composables/useRaiderIoImport.ts:152-162 | Tyrannical exactly when some affix has id 9; Fortified exactly when none has, whether or not id 10 is present |
| `Classifier.OnlyNineDecides` | composables/useRaiderIoImport.ts:152-162 | two affix lists that agree on the presence of id 9 get the same modifier, whatever other ids (10 included) they hold |
| `BestRuns.EmptyDungeonTimings` | composables/useRaiderIoImport.ts:169-179 | the empty table has exactly the catalog dungeons as keys, and both modifiers of each hold `{level 0, plus 0, duration 0, score 0}` |
| `BestRuns.Step` | composables/useRaiderIoImport.ts:47-57 | one run fails exactly when its dungeon is not in the table, and a failure names that dungeon; otherwise the table keeps the same dungeons |
| `BestRuns.StepSlot` | composables/useRaiderIoImport.ts:46-57 | one run changes no slot except its own (dungeon, classified modifier); its own slot afterwards scores at least the old score and the run's score, and either is unchanged or holds the run's entry, which then scores strictly higher than the old one |
| `BestRuns.Fold` | composables/useRaiderIoImport.ts:46-73 | a successful fold keeps the table's dungeons: no run adds or removes one |
| `BestRuns.FoldSucceeds` | composables/useRaiderIoImport.ts:46-50 | the fold succeeds exactly when every run names a dungeon of the table |
| `BestRuns.RunImport` | composables/useRaiderIoImport.ts:36-86 | the forEach loop over best runs followed by alternate runs yields exactly `Selection` of the catalog and the runs, with the profile's character; the warnings are exactly `TimerWarnings` of the runs; on an unknown dungeon it fails, having warned only about the runs before the first unknown one |
| `BestRuns.FoldSlot` | composables/useRaiderIoImport.ts:44-57 | after the fold, a slot either keeps its starting entry (and no run of the slot scores higher) or holds the entry of the first run of the slot that reached the slot's highest score, which beats the starting score: maximality, witness and first-wins tie-break together |
| `BestRuns.SelectionSlot` | composables/useRaiderIoImport.ts:44-57 | every catalog dungeon is in the selected table; each slot scores at least every run classified into it, and is either the zero entry or the entry (level, plus, duration, score) of one such run with positive score |
| `BestRuns.FoldFailsAtFirstUnknown` | composables/useRaiderIoImport.ts:48-50 | when the first run whose dungeon is missing is at index k, the fold fails with that dungeon's name |
| `BestRuns.NoReplacementOnTie` | composables/useRaiderIoImport.ts:50 | a later run of the same slot with a score not above the earlier run's changes nothing, so equal scores keep the earlier run |
| `BestRuns.NonPositiveScoresKeepZero` | composables/useRaiderIoImport.ts:50 | when every run of a slot scores 0 or less, the slot keeps the zero entry |
| `BestRuns.UntouchedSlotUnchanged` | composables/useRaiderIoImport.ts:46-57 | a slot that no run classifies into ends with its starting entry |
| `BestRuns.SwapWithoutTie` | composables/useRaiderIoImport.ts:46-57 | two runs of different slots, or with different scores, give the same table in either order: order matters only through the tie rule |
| `BestRuns.SelectionIgnoresParTimes` | composables/useRaiderIoImport.ts:59-72 | the selected table depends only on the catalog's dungeon names, never on its par times: the par-time check does not affect selection |
| `BestRuns.TimerWarningsSound` | composables/useRaiderIoImport.ts:59-72 | every emitted warning is about some run whose par time differs from the catalog's, with that run's dungeon, modifier and both times |
| `BestRuns.TimerWarningsComplete` | composables/useRaiderIoImport.ts:59-72 | every run whose par time differs from the catalog's gets its warning |
| `BestRuns.TimerWarningsExact` | composables/useRaiderIoImport.ts:59-72 | a warning is emitted exactly for each run whose par time differs from the catalog's `plus1`, and it carries the dungeon, the run's modifier, the catalog value as expected and the run's as actual |
| `Scores.CheckScores` | composables/useRaiderIoImport.ts:110-147 | the loop's warnings are exactly `ScoreMismatches`, dungeon by dungeon in catalog order with Fortified before Tyrannical; the result is false |
| `Scores.DungeonMismatchesExact` | composables/useRaiderIoImport.ts:115-143 | one dungeon's warnings are exactly its slots whose calculated score `equals` rejects against the imported score, each carrying the dungeon, the modifier and both scores; there are at most two, Fortified before Tyrannical |
| `Scores.CheckDungeon` | composables/useRaiderIoImport.ts:115-143 | the loop body for one dungeon warns exactly about the slots whose calculated score `equals` rejects, with the dungeon, modifier and both scores; at most two warnings, Fortified before Tyrannical; the list is `DungeonMismatches`, which the walk over all dungeons uses |
| `Scores.ScoreMismatchesExact` | composables/useRaiderIoImport.ts:114-143 | a warning is emitted exactly for each catalog (dungeon, modifier) whose calculated base score `equals` rejects against the imported score; it carries both values |
| `Scores.NoMismatchesWhenAllAgree` | composables/useRaiderIoImport.ts:114-143 | there is no warning exactly when every slot of every catalog dungeon agrees under `equals` |
| `Store.PlayerData.ApplyImport` | composables/useRaiderIoImport.ts:88-108 | for every dungeon and modifier of the new table, both the original and the hypothetical entry equal the new entry's level, plus and duration (the score is dropped); other dungeons and the table keys are unchanged; the character is set exactly when the new table is not empty |
| `Store.PlayerData.WriteDungeon` | composables/useRaiderIoImport.ts:92-106 | the inner loop over one dungeon's two modifiers replaces that dungeon's record in both tables with the entries minus score (`Stored`), leaves the other dungeons alone, and sets the character |
| `Store.MergeStep` | composables/useRaiderIoImport.ts:91-107 | writing one more dungeon of the new table into a partly merged table gives the merge over one more dungeon: written dungeons hold their new record, all others their old one |
| `Store.WrittenBothWeeks` | composables/useRaiderIoImport.ts:92-106 | writing Tyrannical then Fortified, whatever the record held before, leaves exactly the new entries without scores |
| `Store.CharacterHistory.Save` | composables/useRaiderIoImport.ts:23 | archiving appends the character to the history |
| `Import.ImportStatus.constructor` | composables/useRaiderIoImport.ts:6-7 | both flags start false |
| `Import.ImportStatus.DismissError` | composables/useRaiderIoImport.ts:9-14 | with `error` set, both flags become false; with `error` clear, nothing changes |
| `Import.ImportStatus.ImportCharacter` | composables/useRaiderIoImport.ts:16-34 | on any failure (fetch, unknown dungeon, archive) `error` is true, `loading` stays true, and the store and the history are untouched, since the archive is written before the merge; on success `loading` is false and `error` unchanged, the character is archived, both tables hold the selected entries minus score for every catalog dungeon and modifier (a function of the payload alone, so a repeated import gives the same tables), other dungeons keep theirs, and the character is set when the catalog is not empty |
| `Scenarios.MatchingParTime` | composables/useRaiderIoImport.ts:44-72 | one Tyrannical run of X (level 20, 3 upgrades, 1000000 ms, score 300) with the catalog's par time lands in (X, Tyrannical); Fortified stays zero; no timer warning |
| `Scenarios.MismatchingParTime` | composables/useRaiderIoImport.ts:59-72 | the same run against a `plus1` of 1300000 gives the same table and one warning, expected 1300000, actual 1200000 |
| `Scenarios.UnknownDungeonFails` | composables/useRaiderIoImport.ts:48-50 | a run of a dungeon missing from the catalog makes the selection fail with that dungeon's name |

## Left out

- The HTTP fetch, `res.json()`, the URL built from region, realm and name, and `cache: "reload"` for `force`. This is network I/O. The model takes the outcome as a `FetchOutcome`.
- Building `CharacterInfo` from the JSON body. It is a plain field copy. The decoded `Profile` carries the character.
- Missing or non-numeric run fields, and floating-point scores. Runs are typed and scores are integers. Scores are only compared: with `<` in the selection and through `equals` in the score check.
- `console.warn` and its message strings. The warnings are returned as lists of records.
- The meaning of `.equals` on score values. The type is not part of this model, so `equals` is a parameter.
- How `usePlayerData` calculates `originalScores`, its initial state, and Pinia reactivity. The scores that `checkScores` reads are an input. `PlayerData`'s constructor is the model's own.
- What `useCharacterHistory.save` does beyond appending the character. Whether it throws is the input `archiveAccepts`.
- Overlapping `importCharacter` calls and late responses after `dismissError`. This is async interleaving.
- Store or score records that lack a catalog dungeon. The source's `Record<DUNGEON_SHORTS, …>` types promise every dungeon, so `ApplyImport`, `CheckScores` and `ImportCharacter` require it. As a result, the partial merge without rollback that a later failing step could leave never arises in the model.
- `Import.ImportStatus.ImportCharacter`: on a failure, it does not state which timer warnings were emitted. `BestRuns.RunImport` states them.
- Catalogs with repeated short names. `Object.keys` of the catalog object never repeats a key, but the `Catalog` sequence type allows it. On such a catalog `Plus1` takes the first entry where an object literal keeps the last, and `ScoreMismatches` visits the dungeon twice. The stated properties hold on every catalog.
