# The tournament hub, modelled

A Dafny model of the server core of a court-side tournament hub: the single-elimination bracket
engine, the handler that turns requests and court results into bracket steps, the two writers of
the state file, the restart, and the match engine with its undo log.

The source is imperative, and so is the model: `BracketEngine`, `BracketHandler`, `CourtManager`,
`PersistenceCoordinator` and `MatchEngine` are classes that overwrite fields, match objects and
collections in place. Each method is proved to do to the objects what a function in a `...Spec`
or `...Ops` module does to the value they stand for; the theorems are proved about those functions
and about runs of them.

| file | what is in it |
|---|---|
| `Types.dfy`, `BracketTree.dfy`, `MatchIds.dfy` | shared types; index arithmetic of the flat tree; match ids are keys |
| `BracketSpec.dfy`, `BracketOps.dfy` | the bracket as a value; the engine as a step machine with its error cases |
| `BracketUndo.dfy`, `BracketThirdPlace.dfy` | closed form of the recursive undo; its exact effect on the third place |
| `BracketCoherence.dfy`, `BracketProvenance.dfy`, `BracketPlaces.dfy`, `BracketLosers.dfy` | statuses and winners over all runs; the pure recursive bracket; players, counts, champion; whose names the third-place match has |
| `BracketEffects.dfy` | what each engine operation accepts, writes and leaves alone |
| `BracketExamples.dfy` | runs that reach the failing cases |
| `BracketEngine.dfy` | the engine on mutable match objects |
| `MatchSpec.dfy`, `MatchUndo.dfy`, `MatchRestore.dfy`, `MatchEngine.dfy` | one match: actions, undo log, published and saved forms, the engine object |
| `TableTennisRules.dfy`, `PadelRules.dfy` | the two sets of scoring rules, and what undo gives back under each |
| `CourtSpec.dfy`, `CourtManager.dfy` | runtime courts, saved rows, restart; the coordinator and the court manager |
| `HubSpec.dfy`, `HubCourts.dfy`, `HubAdvance.dfy`, `HubRuns.dfy` | the server between events; bindings; court results; whole runs |
| `HubPersistence.dfy`, `HubRestart.dfy`, `HubReset.dfy` | saving and what wipes it; restarts; the two-step reset |
| `HubEffects.dfy` | what each request and court result accepts, writes, saves and leaves alone |
| `HubExamples.dfy` | server runs that leave the file wrong for good |
| `BracketHandler.dfy`, `NameRules.dfy` | the handler object; what becomes of a player name |
| `Server.dfy` | starting, stopping and wiping: the objects put together |

## Where the code does not do what it says

The model follows the code. Each of these is a theorem with its exact condition.

- Undoing an earlier match is meant to take the semifinal's loser out of the third-place match
  (`server/src/domain/BracketEngine.ts:360-363`). It does not when the cascade comes through the
  loser's own match, whose slot is emptied before it is read: `LoserReleasedIff`, `StrandedLoser`;
  reached by play in `QuarterfinalCascadeGap`.
- Taking a loser out of a third-place match that this loser has already won leaves it decided, for a
  side with nobody on it: `ThirdPlaceNamesWinnerIff`, `NamelessThirdPlace`.
- The third-place match is documented as ready once both its slots are filled
  (`server/src/domain/BracketEngine.ts:193-195`); one name is enough: `FeedEffect`.
- Clearing a slot of a decided match is documented as not allowed
  (`server/src/domain/BracketEngine.ts:123-124`) but is done. The tree keeps its meaning exactly
  under the condition in `SeedSound`; `ClearedSeat` is a run that breaks it.
- Undoing a point, until both have ten, leaves the service with the other player (table tennis), and never
  takes the point itself back (padel): `UndoRestoresGameIff`, `UndoNeverRestoresAPoint`.
- A padel match restored from disk loses games, sets and server (`PadelSurvivesOnlyInPart`), and is
  scored by table-tennis rules, because the restore names no rules (`BroughtBackMeans`).
- Finishing a tournament clears the file but not the shared document, so the next bracket save
  writes the rows last collected back. They last beyond the pending timers unless a session save was
  pending or the finish freed a court: `FinishedSessionsStayIff`, `FinishedRowIsBack`. The bracket it
  keeps for display is off the disk until the next save, and no save need be pending:
  `FinishLosesBracketIff`, `FinishedBracketIsLost`.
- Discarding the saved tournament deletes the file under the same live document, and any later save
  brings it back whole: `DiscardLastsIff`.
- Setting the club up afresh (`server/src/handlers/SocketHandler.ts:152-160`) is a third writer of the
  shared document. It empties catalog, document and file, but neither the engine nor the runtime
  courts: the bracket comes back with the next bracket save, the rows with the next session save, and
  a shutdown before that bracket save loses the bracket: `SetupResetIsUndone`, `BehindIsOutOfStep`, `SetupResetLosesBracket`.
- Rows of courts no longer in the catalog are dropped at restart but stay in the file until the next
  session save, which is pending only if some court came back: `RestartIsGoodIff`, `GhostRowStays`.
- Selecting a court asks whether it is busy, assigning it does not: `SelectMeans`, `AssignCourtMeans`.
- The change of sides in a deciding table-tennis set can come on the point that ends a match early:
  `SidesAfterSet`.
- The final score reported with a won table-tennis match lists the last set twice: `TableTennisReports`.
- Undo of an empty log is guarded nowhere and throws (`server/src/domain/matchEngine.ts:262-263`);
  the model reports it as a failed step that changes nothing.

## Model

| member | source | states |
|---|---|---|
| `BracketUndo.CascadeIsWipe` | server/src/domain/BracketEngine.ts:359-380 | The recursive undo equals a closed form, from any state: the winners along the target's chain go and the slots that chain feeds are emptied, all at once |
| `BracketUndo.UndoEffect` | server/src/domain/BracketEngine.ts:241-246 | Match by match, an undo removes a winner iff the match is in the chain, empties a slot iff a chain member feeds it, and leaves courts and all other matches alone |
| `BracketUndo.ChainClosed` | server/src/domain/BracketEngine.ts:370-379 | The chain is unbroken (every later member was decided and is fed by a member) and maximal (it goes on while the next match is decided) |
| `BracketUndo.DecidedAfterWipe` | server/src/domain/BracketEngine.ts:365-376 | After an undo a match is decided iff it was and is not in the chain |
| `BracketUndo.ChainAfterWipe` | server/src/domain/BracketEngine.ts:359-380 | What a second undo still finds to take back is exactly what the first did not reach |
| `BracketUndo.UndosCommute` | server/src/domain/BracketEngine.ts:241-246 | Undoing any two matches in either order gives the same main tree, from any state |
| `BracketUndo.UndoIdempotent` | server/src/domain/BracketEngine.ts:241-246 | Undoing the same match again changes nothing in the main tree |
| `BracketThirdPlace.ThirdPlaceAfterUndo` | server/src/domain/BracketEngine.ts:388-406 | Exact effect of an undo on the third-place match when its cascade takes back a semifinal: the slot is emptied iff it still holds the loser's name and the cascade did not come through the loser's own earlier match |
| `BracketThirdPlace.ThirdPlaceUntouched` | server/src/domain/BracketEngine.ts:395 | An undo whose cascade reaches no semifinal leaves the third-place match alone |
| `BracketThirdPlace.LoserReleasedIff` | server/src/domain/BracketEngine.ts:360-363 | The documented promise that an undone semifinal releases its loser holds iff the cascade did not arrive through the loser's match |
| `BracketThirdPlace.StrandedLoser` | server/src/domain/BracketEngine.ts:374-379 | Whenever the cascade does arrive that way the loser stays, a later undo of the semifinal does not help, and undoing the semifinal first would have: the two orders differ |
| `BracketExamples.QuarterfinalCascadeGap` | server/src/domain/BracketEngine.ts:359-406 | From an empty engine, for any eight names: seeded, two openings and the semifinal between their winners decided, its loser fed to the third place. Undoing the opening that loser won takes the semifinal's winner and the loser's slot away and leaves the loser in the third-place match |
| `BracketThirdPlace.ThirdPlaceNamesWinnerIff` | server/src/domain/BracketEngine.ts:401-405 | A decided third-place match goes on naming its winner after an undo iff the undo does not take out the loser who won it; decided it stays either way |
| `BracketExamples.NamelessThirdPlace` | server/src/domain/BracketEngine.ts:401-405 | The same eight players: the loser wins the third place, the semifinal is undone, and the third-place match is decided for a side with nobody on it |
| `BracketLosers.UndoLosersIff` | server/src/domain/BracketEngine.ts:359-406 | While each slot of the third-place match is empty or has the loser of its decided semifinal, an undo keeps it so iff it does not come to a semifinal through the match its loser had won |
| `BracketLosers.StepLosersIff` | server/src/domain/BracketEngine.ts:127-289 | The same for every operation: with names assigned only as seedings to undecided main matches, only such an undo breaks it |
| `BracketLosers.RunHoldsLosers` | server/src/domain/BracketEngine.ts:206-231 | In every run of such operations without such an undo the third-place match has nobody but the losers of its decided semifinals |
| `HubRuns.ServerHoldsLosers` | server/src/handlers/BracketHandler.ts:422-452 | The same over every run of the server, court results included |
| `BracketCoherence.StepCoherent` | server/src/domain/BracketEngine.ts:127-231 | Every operation keeps: decided iff there is a winner, pending iff undecided with both slots empty, bracket status equal to its definition |
| `BracketCoherence.RunCoherent` | server/src/domain/BracketEngine.ts:431-444 | Status coherence over every run, with no discipline asked of callers, although only two operations recompute the bracket status |
| `BracketCoherence.StatusOverRun` | server/src/domain/BracketEngine.ts:426-444 | Over every run the bracket is finished iff its final is decided, whatever the third place, set up iff no match and no third place is, and active otherwise |
| `BracketSpec.StatusOfFits` | server/src/domain/BracketEngine.ts:431-444 | The function the scan computes says the same |
| `BracketCoherence.WipeCoherent` | server/src/domain/BracketEngine.ts:365-376 | The cascade restores coherence from states where the target alone is incoherent |
| `BracketCoherence.WinnerStable` | server/src/domain/BracketEngine.ts:127-246 | A declared winner survives an operation iff it is not a successful create, a reset, or an undo whose chain reaches the match |
| `BracketCoherence.WinnerStableOverRun` | server/src/domain/BracketEngine.ts:127-289 | A winner that no step of a run revokes is there at its end |
| `BracketCoherence.RoundTrip` | server/src/domain/BracketEngine.ts:165-246 | Declare, feed the semifinal loser, undo: the whole bracket with all derived statuses is restored iff nothing downstream used the result and the loser's name was not already in the third-place slot |
| `BracketCoherence.FeedNeverFails` | server/src/domain/BracketEngine.ts:206-231 | Once a declaration is accepted the loser feed is accepted too, and it leaves the main tree alone |
| `BracketProvenance.TreeIsPure` | server/src/domain/BracketEngine.ts:342-356 | In a sound tree every slot equals the pure recursive function of round-1 seeds and declared winners |
| `BracketProvenance.PlayDeterminesTree` | server/src/domain/BracketEngine.ts:342-380 | Seeds and winners determine the whole tree, slots and statuses: no other history is left in it |
| `BracketProvenance.DeclareSound` | server/src/domain/BracketEngine.ts:165-182 | Declaring a winner, byes and late feeds into decided byes included, keeps the tree sound and changes one winner of the pure bracket |
| `BracketProvenance.UndoSound` | server/src/domain/BracketEngine.ts:359-380 | An undo keeps the tree sound and is, on the pure bracket, removing the winners along the chain of declared winners |
| `BracketProvenance.SeedSound` | server/src/domain/BracketEngine.ts:127-144 | Assigning a name keeps the tree sound iff it changes nothing, or goes to a first-round slot that no declared winner advanced from |
| `BracketExamples.ClearedSeat` | server/src/domain/BracketEngine.ts:134-143 | From an empty engine: two names seeded, the first declared winner, the winner's slot cleared. The clearing is accepted, the name stays on in the semifinal, and the tree is no longer the pure bracket |
| `BracketProvenance.RunSound` | server/src/domain/BracketEngine.ts:127-282 | In every run whose player assignments are such seedings the mutable tree equals the pure recursive bracket |
| `BracketPlaces.OnePlaceEach` | server/src/domain/BracketEngine.ts:165-182 | With different seeds, every seeded player is in exactly one place: loser of one decided match, waiting in one undecided match, or champion |
| `BracketPlaces.EveryoneWasSeeded` | server/src/domain/BracketEngine.ts:342-356 | Every name anywhere in the tree is a first-round seed |
| `BracketPlaces.NoDuplicateInRound` | server/src/domain/BracketEngine.ts:342-356 | No name occurs twice in a round |
| `BracketPlaces.DecidedCount` | server/src/domain/BracketEngine.ts:165-182 | Decided main matches are as many as the occupied slots after round 1, plus one if the final is decided |
| `BracketPlaces.ChampionPath` | server/src/domain/BracketEngine.ts:431-439 | A finished bracket has a champion that is a round-1 seed and winner of every match on its way to the final |
| `BracketPlaces.FinishedRunHasChampion` | server/src/domain/BracketEngine.ts:431-439 | The same over every disciplined run |
| `BracketPlaces.RunPlacesEveryone` | server/src/domain/BracketEngine.ts:165-246 | One place per player over every disciplined run |
| `BracketEffects.CreateEffect` | server/src/domain/BracketEngine.ts:70-97 | Refused iff the size is not 4, 8, 16 or 32; otherwise the bracket has the name, size, choice of third place and date asked for, one match fewer than slots, all of them empty |
| `BracketEffects.AssignEffect` | server/src/domain/BracketEngine.ts:127-144 | Refused iff the name is longer than 50; otherwise it is in that slot of that match, decided or not, the empty name clears it, and no other slot, winner, court or match changes |
| `BracketEffects.DeclareEffect` | server/src/domain/BracketEngine.ts:165-182 | Accepted iff the match is ready and somebody is on that side; the match is decided for it, the name is in the slot of the next match that the position gives, and nothing else changes |
| `BracketEffects.DeclareThirdPlaceEffect` | server/src/domain/BracketEngine.ts:165-182 | The same for the third-place match, which leads nowhere |
| `BracketEffects.FinalEnds` | server/src/domain/BracketEngine.ts:427-439 | An accepted winner of the final finishes the bracket, whatever the third place |
| `BracketEffects.FeedEffect` | server/src/domain/BracketEngine.ts:206-231 | For either semifinal: accepted iff it is decided and that side lost it; the loser's name goes to the slot of its side if that is free and the match open, which makes it ready; otherwise nothing changes |
| `BracketEffects.DeclareAndFeedEffect` | server/src/handlers/BracketHandler.ts:437-443 | The same of declaring and feeding together, with everybody's name named |
| `BracketEffects.UndoSent` | server/src/domain/BracketEngine.ts:241-246 | An undo sent by id is never refused and leaves a bracket status that fits |
| `BracketEffects.UndoThirdPlaceEffect` | server/src/domain/BracketEngine.ts:364-368 | Undoing the third-place match takes its winner away and keeps its players and court and the whole main tree |
| `BracketEffects.ThirdPlaceDeclaredAndUndone` | server/src/domain/BracketEngine.ts:165-246 | An accepted winner of the third place and its undo give the bracket back |
| `BracketEffects.CourtEffect` | server/src/domain/BracketEngine.ts:251-256 | Binding writes the one court and nothing else |
| `BracketEffects.UnknownMatch` | server/src/domain/BracketEngine.ts:318-331 | Without a bracket or a match of that id every request is refused and nothing changes |
| `BracketTree.AtNext` | server/src/domain/BracketEngine.ts:409-416 | Next round, half the position, slot by position parity is the index arithmetic the proofs use |
| `BracketTree.AtStage` | server/src/domain/BracketEngine.ts:418-424 | Final, semifinals and first round are told apart by the round number alone |
| `BracketSpec.NextPlace` | server/src/domain/BracketEngine.ts:409-416 | The match one round on at half the position is the next match, and no other match is |
| `MatchIds.MatchIdInjective` | server/src/domain/BracketEngine.ts:80 | Match ids of the form R-M are different for different rounds or positions |
| `BracketSpec.FindOwnId` | server/src/domain/BracketEngine.ts:326-331 | Looking up a match's own id finds that match |
| `BracketOps.EmptyBracketWellFormed` | server/src/domain/BracketEngine.ts:70-97 | A created bracket of any number of rounds from two has one empty match per place, in order |
| `BracketOps.SizesArePowers` | server/src/domain/BracketEngine.ts:36 | The four allowed sizes are the powers of two from two rounds to five |
| `BracketOps.StepOk` | server/src/domain/BracketEngine.ts:70-289 | Every operation keeps the bracket's shape |
| `BracketEngine.BracketEngine.Create` | server/src/domain/BracketEngine.ts:70-97 | Builds the rounds with nested loops and replaces the bracket, or refuses the size and changes nothing |
| `BracketEngine.BracketEngine.AssignPlayer` | server/src/domain/BracketEngine.ts:127-144 | On mutable match objects, does what the specified step does, error cases included |
| `BracketEngine.BracketEngine.SetWinner` | server/src/domain/BracketEngine.ts:165-182 | Same, for declaring a winner |
| `BracketEngine.BracketEngine.SetThirdPlaceLoser` | server/src/domain/BracketEngine.ts:206-231 | Same, for feeding a semifinal loser |
| `BracketEngine.BracketEngine.UndoMatch` | server/src/domain/BracketEngine.ts:241-246 | Same, for undo |
| `BracketEngine.BracketEngine.CascadeUndo` | server/src/domain/BracketEngine.ts:359-380 | The in-place recursive cascade computes the specified one and terminates on the matches left to the final |
| `BracketEngine.BracketEngine.ClearThirdPlaceSlot` | server/src/domain/BracketEngine.ts:388-406 | In place, clears the third-place slot exactly when the specification does |
| `BracketEngine.BracketEngine.AdvanceWinner` | server/src/domain/BracketEngine.ts:342-356 | In place, moves the winner's name on; final and third place lead nowhere |
| `BracketEngine.BracketEngine.Downstream` | server/src/domain/BracketEngine.ts:409-416 | The search by round and position finds the next match, and nothing for the final |
| `BracketEngine.BracketEngine.FindMatch` | server/src/domain/BracketEngine.ts:326-331 | The search by id returns the object the specified lookup refers to |
| `BracketEngine.BracketEngine.RecomputeBracketStatus` | server/src/domain/BracketEngine.ts:431-444 | The scan computes the defined bracket status |
| `BracketEngine.BracketEngine.AssignCourt` | server/src/domain/BracketEngine.ts:251-256 | Binds or unbinds one match |
| `BracketEngine.BracketEngine.ReleaseAll` | server/src/domain/BracketEngine.ts:269-282 | Returns the bound courts, each once, in match order with the third place last, and clears nothing but the bindings |
| `BracketEngine.BracketEngine.Restore` | server/src/domain/BracketEngine.ts:292-294 | A deep copy of any snapshot: the engine stands for it on all new objects |
| `HubCourts.IndexIsExact` | server/src/handlers/BracketHandler.ts:378-389 | When no court is bound twice, the rebuilt index maps a court to a match iff that match holds it, third place included |
| `HubCourts.BindExclusiveIff` | server/src/handlers/BracketHandler.ts:217-229 | Binding a court keeps bindings exclusive iff the guard finds no other match holding it |
| `HubCourts.ReleaseExactly` | server/src/domain/BracketEngine.ts:269-282 | The released courts are exactly those some match held; afterwards none is bound and nothing else has changed |
| `HubCourts.StepExclusive` | server/src/handlers/BracketHandler.ts:206-238 | Every guarded engine step keeps bindings exclusive |
| `HubAdvance.AutoAdvance` | server/src/handlers/BracketHandler.ts:422-452 | A court result advances the bracket iff the bound match is ready and the name fits; false changes nothing (the catch branch is never taken after a change), true is declaration plus feed, saved, courts freed if final |
| `HubEffects.ResultAcceptedIff` | server/src/handlers/BracketHandler.ts:422-441 | A court result is accepted iff the match that holds the court is ready and has the reported name on a side; otherwise nothing changes |
| `HubEffects.ResultMeans` | server/src/handlers/BracketHandler.ts:429-450 | Then the player of that name has won: the match is decided for that side, the name is in the slot of the next match, the other name of a semifinal goes to the third place if it is free, the result is saved at once, and a decided final finishes the bracket and leaves no match with a court |
| `HubEffects.ThirdPlaceResultMeans` | server/src/handlers/BracketHandler.ts:429-450 | The same for the third-place match, which sends nobody anywhere |
| `HubEffects.NoHolderNoResult` | server/src/handlers/BracketHandler.ts:423-425 | A court that no match holds reports in vain |
| `HubEffects.FinalByRequest` | server/src/handlers/BracketHandler.ts:189-204 | The owner's decision of the final finishes the bracket and leaves no match with a court, whatever the third place |
| `HubAdvance.ResultByCalls` | server/src/handlers/BracketHandler.ts:437-447 | The handler's two engine calls compute declaration plus feed and neither is refused |
| `HubAdvance.ReplayIsNoOp` | server/src/handlers/BracketHandler.ts:426-427 | The same court reporting again does nothing |
| `HubRuns.EventIsEngineRun` | server/src/handlers/BracketHandler.ts:137-452 | Every server event changes the bracket only through engine operations, so engine run theorems carry over |
| `HubRuns.EveryRunIsSane` | server/src/handlers/BracketHandler.ts:137-617 | Every interleaving, the requests that wipe file or document included, keeps statuses coherent, bindings exclusive and court ids unique |
| `HubRuns.ServerBracketIsPure` | server/src/handlers/BracketHandler.ts:168-452 | Over server runs with seed-only assignments the bracket stays the pure function of seeds and winners |
| `HubPersistence.HandleGoodIff` | server/src/handlers/BracketHandler.ts:137-617 | Each event keeps saving sound (snapshot bracket is the engine's, disk bracket too unless a save is pending, disk sessions are the snapshot's and current unless a save is pending) iff it is not a discard, finish or club setup reset that finds something to lose, told from the state before |
| `HubPersistence.EveryRunIsGood` | server/src/handlers/BracketHandler.ts:137-617 | Every interleaving of requests, court results, timers and flushes whose wiping requests find nothing to lose keeps saving sound |
| `HubPersistence.RunRecovers` | server/src/handlers/BracketHandler.ts:580-617 | From any state, however wiped, saving is sound again once each writer has written, in any order and whatever else happens, until the next wiping request |
| `HubPersistence.NoWriteLosesTheOther` | server/src/domain/courtManager.ts:1287-1319 | After any such run, a session save leaves the engine's bracket and the current sessions on disk, any other event but a wiping one leaves the sessions on disk alone, and the disk has the engine's bracket unless a bracket save is pending |
| `HubPersistence.BehindIsOutOfStep` | server/src/handlers/SocketHandler.ts:152-160 | Over every run, the snapshot has the engine's bracket iff no club setup reset with a live bracket has come after the last bracket write |
| `HubPersistence.ShutdownAfterAnyRun` | server/src/index.ts:241-249 | After any run at all the two shutdown flushes leave the current sessions on disk, and the current bracket iff the snapshot is not behind in that way |
| `HubPersistence.SetupResetIsUndone` | server/src/handlers/SocketHandler.ts:152-160 | A club setup reset empties catalog, snapshot and file but neither engine nor courts: the next bracket save writes the bracket back, the next session save the rows, and a shutdown in between loses the bracket iff there is one |
| `HubExamples.StartedIsRestart` | server/src/index.ts:71-79 | The server these runs start from is the one started without a file, and is sound |
| `HubExamples.SetupResetLosesBracket` | server/src/handlers/SocketHandler.ts:152-160 | A server run after which the shutdown loses the bracket in that way |
| `HubPersistence.FinishLosesBracketIff` | server/src/routes/tournament.ts:92-118 | With the pending timers run out after a finish, the bracket that stays on display is on disk iff there is none, or a session save was pending, or the finish freed a runtime court, or a bracket save was pending and no court was bound |
| `HubExamples.FinishedBracketIsLost` | server/src/routes/tournament.ts:92-118 | A server run after which the bracket on display is neither on disk nor about to be |
| `HubPersistence.FinishedSessionsStayIff` | server/src/domain/courtManager.ts:770-778 | The next bracket save writes back the rows last collected; once both timers have run out the rows are those of the courts still there iff a session save was pending, or the finish freed a court, or only club courts had a row |
| `HubExamples.FinishedRowIsBack` | server/src/domain/courtManager.ts:770-778 | A server run that finishes a tournament and creates the next, after which the file has the row of a dropped court and no session save is pending |
| `HubPersistence.DiscardLastsIff` | server/src/routes/tournament.ts:77-84 | A discarded document is written back by the pending timers iff one is pending, and by any immediate save; then the discard has made no difference |
| `HubRestart.ShutdownAndRestart` | server/src/domain/courtManager.ts:1383-1397 | Shutting down at any moment of any run and starting again with whatever catalog there is then gives first, in order, the courts with a flow that are still cataloged, and the same bracket iff the snapshot was not behind |
| `HubRestart.RestartCourts` | server/src/domain/courtManager.ts:1383-1486 | A restart brings any court back iff the file has a saved flow of a cataloged court or its bracket holds a court in service |
| `HubRestart.RestartIsGoodIff` | server/src/domain/courtManager.ts:1367-1493 | A restart from a sound file is sound again iff the file has no rows, or a saved flow of a cataloged court, or a bracket holding a court in service; otherwise rows of courts that are gone stay in the file with no save pending |
| `HubExamples.GhostRowStays` | server/src/domain/courtManager.ts:1389-1392 | A match running through a club setup reset is saved again; after a restart its court is not back and its row stays in the file, with no save pending |
| `HubReset.EveryClearHasItsToken` | server/src/handlers/BracketHandler.ts:330-366 | Every clearing consumes the token last issued to that socket at most 30 seconds before, waiting since without disconnection or newer request |
| `HubReset.NoTokenClearsTwice` | server/src/handlers/BracketHandler.ts:358 | With fresh tokens, no token clears twice |
| `HubReset.NewerTokenWins` | server/src/handlers/BracketHandler.ts:334-345 | A newer request from the same socket invalidates the older token |
| `HubReset.ClearsIff` | server/src/handlers/BracketHandler.ts:330-366 | A confirmation clears iff it comes from the owner, names the token waiting on its socket, and is in time; anything else changes tokens only |
| `HubReset.ResetAnswers` | server/src/handlers/BracketHandler.ts:330-366 | Every answer: a first request gets the token that then waits for 30,000 ms, an expired one is used up, a wrong one is refused and stays |
| `HubReset.ConfirmedInTimeClears` | server/src/handlers/BracketHandler.ts:330-357 | A token still waiting clears the bracket for 30,000 ms after its issue, and then no longer |
| `HubReset.ClearFreesCourts` | server/src/handlers/BracketHandler.ts:358-364 | A clearing leaves no bracket in engine, snapshot or disk, and has first ended the tournament flow of every court the bracket held |
| `BracketHandler.BracketHandler.constructor` | server/src/handlers/BracketHandler.ts:70-87 | The engine starts from the snapshot's bracket, whatever it is |
| `BracketHandler.BracketHandler.BuildCourtIndex` | server/src/handlers/BracketHandler.ts:378-389 | The loop builds the specified index: later matches overwrite earlier ones, the third place all |
| `BracketHandler.BracketHandler.ResolveBracketMatchForCourt` | server/src/handlers/BracketHandler.ts:397-399 | Finds the match object the index has for a court |
| `HubEffects.CreateMeans` | server/src/handlers/BracketHandler.ts:137-166 | Accepted iff it comes from the owner, some court is in service, the name has at most 50 characters and the size is one of the four; saved at once |
| `HubEffects.RequestMeans` | server/src/handlers/BracketHandler.ts:189-323 | What is refused and with which answer; decisions and undos are on disk at once, assignments and bindings in the document at once and on disk later |
| `HubEffects.AssignPlayerMeans` | server/src/handlers/BracketHandler.ts:168-187 | Refused iff longer than 50; otherwise the name without its tags is in that slot, saved later |
| `HubEffects.AssignCourtMeans` | server/src/handlers/BracketHandler.ts:206-238 | Accepted iff the court is in service and no other match holds it; the match then has it and nothing else changes; taking a court away is always accepted |
| `HubEffects.SelectMeans` | server/src/handlers/BracketHandler.ts:255-309 | Accepted iff the court is in service, neither reserved, occupied or over for a club nor running a tournament match, and held by no other match; then the match has it and it has a runtime entry |
| `HubEffects.UnbindMeans` | server/src/handlers/BracketHandler.ts:536-544 | Takes the court from the match of that id and nothing else; of an unknown match nothing |
| `HubEffects.ReleaseMeans` | server/src/handlers/BracketHandler.ts:555-565 | No match has a court afterwards and nothing else in the bracket changes; exactly the courts that were held have their tournament flow ended; saved at once iff any was held |
| `HubEffects.TimersMean` | server/src/domain/courtManager.ts:1257-1279 | What each timer and flush writes, and that nothing is written without a save pending |
| `BracketHandler.BracketHandler.OnCreate` | server/src/handlers/BracketHandler.ts:137-166 | The whole new server state and the reply, refusals included |
| `BracketHandler.BracketHandler.OnAssignPlayer` | server/src/handlers/BracketHandler.ts:168-187 | Same, for assigning a player: refused if too long, else sanitized, assigned and saved later |
| `NameRules.SanitizedIsClean` | shared/validation.ts:80-84 | A sanitized name is what is left without the HTML tags, cut at 50 characters; it has no tag and sanitizing it again changes nothing, and it keeps exactly the names that were in order |
| `BracketHandler.BracketHandler.OnSetWinner` | server/src/handlers/BracketHandler.ts:189-204 | Same, for a manual winner: saved at once, courts freed once the final is decided |
| `BracketHandler.BracketHandler.OnUndoMatch` | server/src/handlers/BracketHandler.ts:311-323 | Same, for undo |
| `BracketHandler.BracketHandler.OnAssignCourt` | server/src/handlers/BracketHandler.ts:206-238 | Same, for binding a court, guards in order |
| `BracketHandler.BracketHandler.OnSelectTable` | server/src/handlers/BracketHandler.ts:255-309 | Same, for selecting a court, which also gets a runtime entry |
| `BracketHandler.BracketHandler.OnReset` | server/src/handlers/BracketHandler.ts:330-366 | Same, for both steps of the reset |
| `BracketHandler.BracketHandler.HandleCourtMatchWon` | server/src/handlers/BracketHandler.ts:422-452 | Same, for a court result |
| `BracketHandler.BracketHandler.UnbindMatch` | server/src/handlers/BracketHandler.ts:536-544 | Same, for a forced end |
| `BracketHandler.BracketHandler.ReleaseAllCourts` | server/src/handlers/BracketHandler.ts:555-565 | Same, and returns the courts that were bound, each once, in match order |
| `BracketHandler.BracketHandler.PersistNow` | server/src/handlers/BracketHandler.ts:580-587 | Cancels the pending save, updates the snapshot and writes the whole document |
| `BracketHandler.BracketHandler.ScheduleDebouncedSave` | server/src/handlers/BracketHandler.ts:609-617 | Updates the snapshot at once and leaves the write pending |
| `BracketHandler.BracketHandler.FlushPending` | server/src/handlers/BracketHandler.ts:595-601 | Writes iff a save is pending |
| `CourtManager.PersistenceCoordinator.Flush` | server/src/services/store/PersistenceCoordinator.ts:61-63 | A flush writes the whole document |
| `CourtManager.CourtManager.PersistState` | server/src/domain/courtManager.ts:1293-1323 | The loop collects the rows of all courts with a flow of their own mode, in order, and writes the whole document |
| `CourtManager.CourtManager.Flush` | server/src/domain/courtManager.ts:1271-1279 | Cancels the pending persist and writes |
| `CourtManager.CourtManager.EnsureRuntimeTournamentCourt` | server/src/domain/courtManager.ts:259-265 | Creates the runtime court iff it is in service and has none |
| `CourtManager.CourtManager.RestoreState` | server/src/domain/courtManager.ts:1367-1493 | The restore loops compute the specified courts: saved flows first, then the courts the bracket names |
| `CourtSpec.RestartExactly` | server/src/domain/courtManager.ts:1383-1486 | After a restart a court exists iff a saved flow names it and it is cataloged, or the bracket names it and it is in service; no ghosts |
| `BracketSpec.AssignedIsBound` | server/src/domain/courtManager.ts:1477-1479 | The restore loop asks for exactly the courts the bracket holds |
| `CourtSpec.SaveRestartRoundTrip` | server/src/domain/courtManager.ts:1293-1460 | Saving and restarting, whatever has become of the catalog, brings back exactly the courts with a flow that are still cataloged, in order |
| `CourtSpec.BroughtBackMeans` | server/src/domain/courtManager.ts:1394-1445 | Each comes back with its flow, mode, pin and names, and the number and name the catalog has now; its match is scored by its own sport's rules iff that is table tennis, the default |
| `Server.Hydrate` | server/src/index.ts:71-79 | Coordinator, court manager and handler made from the file: the engine has its bracket, whatever it is, and no court is there yet |
| `Server.Start` | server/src/index.ts:159-162 | The three objects made in order and the courts restored: the server is the one the restart theorems are about |
| `Server.Shutdown` | server/src/index.ts:241-249 | The two flushes in order do to the server what the shutdown theorems are about |
| `Server.OnPersistTimer` | server/src/domain/courtManager.ts:1257-1266 | The session timer running out does to the server what its event does |
| `Server.Discard` | server/src/routes/tournament.ts:77-84 | Deletes the file and nothing else |
| `Server.Finish` | server/src/routes/tournament.ts:92-118 | Frees the bracket's courts, drops the tournament courts and the file; without a file does nothing |
| `Server.SetUpAfresh` | server/src/handlers/SocketHandler.ts:152-160 | Clears the catalog and writes the empty document |
| `CourtManager.CourtManager.FinishTournament` | server/src/domain/courtManager.ts:770-778 | Keeps exactly the club courts, in order, and deletes the file but not the document |
| `CourtSpec.RowMeans` | server/src/domain/courtManager.ts:1297-1306 | A row is written iff the court has a flow of its own mode, and says what the court is |
| `CourtSpec.RestoredRowMeans` | server/src/domain/courtManager.ts:1394-1445 | What a row that lacks pin, names or match comes back as |
| `CourtSpec.FreshCourtMeans` | server/src/domain/courtManager.ts:276-293 | The runtime court made from a catalog record: its identity, nothing running, default names |
| `CourtSpec.EnsuredMeans` | server/src/domain/courtManager.ts:259-265 | One such court is added, with the pin drawn for it, iff it is in service and not there; the others stay |
| `CourtSpec.EnsuredAllMeans` | server/src/domain/courtManager.ts:1477-1486 | Every court the restart adds for the bracket is such a court |
| `CourtSpec.FlowReleasedMeans` | server/src/domain/flows/TournamentFlowContract.ts:76-103 | Ending a tournament flow starts the court's match over and leaves the rest of it; a club court is left alone |
| `MatchUndo.ActionMeans` | server/src/domain/matchEngine.ts:260-321 | What each action does to the record: a scored point or correction is entered with its player, kind and scores; starting, serving and sides touch one field; nothing is scored or reported unless the match is live |
| `MatchUndo.RunLogOk` | server/src/domain/matchEngine.ts:239-254 | Over every run, for any rules: log entries chain, the last one ends at the current score, and the log never exceeds its bound |
| `MatchUndo.RunRefines` | server/src/domain/matchEngine.ts:239-268 | Every run legal for the bounded log is legal for an unbounded one, same match, the bounded log a suffix of at most 20 entries |
| `MatchUndo.UndosRestore` | server/src/domain/matchEngine.ts:260-268 | k undos put back the score of k entries ago and touch nothing but that score, the server and the log |
| `MatchUndo.UndosReturnAnywhere` | server/src/domain/matchEngine.ts:260-311 | After any legal run of points, corrections, undos and other actions, k undos, k up to the entries left, return the score from before the k-th last scored action not undone yet, as told from the scores shown and not from the log |
| `MatchUndo.UndoReturns` | server/src/domain/matchEngine.ts:260-311 | Score k times, k at most 20, with anything but undos in between: k undos are possible and return the current set's score |
| `MatchUndo.BoundedLength` | server/src/domain/matchEngine.ts:250-252 | How many undos are possible: the scored actions, up to 20 |
| `MatchRestore.RebuildIsIdentityIff` | server/src/domain/matchEngine.ts:387-436 | Rebuilding from the published state is the identity iff the padel fields are there exactly for padel and the undo flag is right |
| `MatchRestore.RebuiltMatchIsTheSame` | server/src/domain/matchEngine.ts:323-436 | A match stopped anywhere and rebuilt with the same rules publishes the same states under every later sequence of actions |
| `MatchRestore.PublishedMeans` | server/src/domain/matchEngine.ts:323-367 | What is published under which name, per sport |
| `MatchRestore.PublishedUndoFlag` | server/src/domain/matchEngine.ts:253-254 | The published undo flag is right over every run |
| `MatchRestore.InitialMeans` | server/src/domain/matchEngine.ts:125-168 | A new match: nothing played, the first set at its initial score or else its handicap |
| `MatchRestore.MissingMeans` | server/src/domain/matchEngine.ts:387-436 | What a saved object that lacks something is read as |
| `MatchRestore.SavedFormMeans` | server/src/domain/courtManager.ts:1330-1358 | What is written: every sport's score under `score`, the last 20 log entries, no names, court or undo flag |
| `MatchRestore.TableTennisSurvives` | server/src/domain/courtManager.ts:1330-1358 | A table-tennis match comes back from disk whole, its log cut to the last 20 entries |
| `MatchRestore.PadelSurvivesOnlyInPart` | server/src/domain/courtManager.ts:1337-1339 | A padel match comes back without its games, sets and server, and whole iff these were at their defaults |
| `MatchRestore.PadelLogBreaks` | server/src/domain/courtManager.ts:1399-1409 | After that the log still fits the score iff it was empty or the games were 0-0 |
| `TableTennisRules.TableTennisKeepsShape` | server/src/domain/sports/tableTennis.rules.ts:56-85 | The table-tennis rules keep states in shape, so the rebuild theorem applies to them |
| `TableTennisRules.PointGoesToScorer` | server/src/domain/sports/tableTennis.rules.ts:56-85 | A point goes to its player; with enough points and lead so does the set, and with more than half of the sets the match; a new set starts from the handicap |
| `TableTennisRules.ServiceAndSides` | server/src/domain/sports/tableTennis.rules.ts:108-131 | Within a set the service changes after every two points, after every one from ten all, and the sides of the deciding set once, at five |
| `TableTennisRules.SidesAfterSet` | server/src/domain/sports/tableTennis.rules.ts:120-131 | After a set the sides change for the next; the change of the deciding set can come due at once by handicap, or on the point that ends the match |
| `TableTennisRules.CorrectionTakesOne` | server/src/domain/sports/tableTennis.rules.ts:87-93 | A correction takes one point from its player and touches nothing else but the service |
| `TableTennisRules.SetIsReported` | server/src/domain/sports/tableTennis.rules.ts:165-190 | The report of a set names its winner, score and number, that of the match its winner and sets |
| `TableTennisRules.TableTennisReports` | server/src/domain/sports/tableTennis.rules.ts:146-197 | A won set is reported iff the point completes it, the end of the match iff the point ends it, last and with its winner; the final score that goes with it has the last set twice |
| `TableTennisRules.TableTennisRebuilds` | server/src/domain/matchEngine.ts:323-436 | A table-tennis match of any configuration, stopped anywhere and rebuilt, publishes the same states ever after |
| `TableTennisRules.UndoRestoresGameIff` | server/src/domain/sports/tableTennis.rules.ts:108-117 | Undoing a table-tennis point gives the score back always, and the whole game state iff the point ended no set, changed no sides, and the service comes back; until both have ten points it never does |
| `PadelRules.PadelKeepsShape` | server/src/domain/sports/padel.rules.ts:136-167 | The padel rules keep states in shape |
| `PadelRules.PointGoesToScorer` | server/src/domain/sports/padel.rules.ts:171-233 | A point short of a game moves its player up by one step, or the other player down from advantage |
| `PadelRules.GameGoesToScorer` | server/src/domain/sports/padel.rules.ts:289-361 | A game goes to the player with the game ball, and the set with enough games; six all, by the configured number, leads to a tiebreak; the service changes with each game and each set |
| `PadelRules.TiebreakGoesToScorer` | server/src/domain/sports/padel.rules.ts:235-284 | In a tiebreak the point is one more for its player, and the set at the target with two ahead |
| `PadelRules.MatchGoesToSets` | server/src/domain/sports/padel.rules.ts:365-377 | The match goes to the player with more than half of its sets |
| `PadelRules.GameChangesSides` | server/src/domain/sports/padel.rules.ts:384-405 | Sides change after every odd game of a set and after every set; a won set goes into the history |
| `PadelRules.TiebreakChangesSides` | server/src/domain/sports/padel.rules.ts:384-405 | The same for a set decided by a tiebreak |
| `PadelRules.ScoreIsEncoded` | server/src/domain/sports/padel.rules.ts:136-154 | Games, sets, points, service and tiebreak of the rules are the published ones |
| `PadelRules.GameEvents` | server/src/domain/sports/padel.rules.ts:289-361 | What a won game reports: the game with its number, then the set it decides or the tiebreak it leads to |
| `PadelRules.CorrectionIsEncoded` | server/src/domain/sports/padel.rules.ts:156-168 | A correction is published where the rules keep it; in a tiebreak it takes one point, never below none |
| `PadelRules.CorrectionStepsBack` | server/src/domain/sports/padel.rules.ts:411-448 | A correction steps the player's points back, from love all into the last game the player won |
| `PadelRules.PadelReports` | server/src/domain/sports/padel.rules.ts:365-377 | The end of a padel match is reported iff the point ends it, last and with its winner |
| `PadelRules.PadelRebuilds` | server/src/domain/matchEngine.ts:323-436 | The same for a padel match of any configuration |
| `PadelRules.UndoNeverRestoresAPoint` | server/src/domain/matchEngine.ts:275-286 | Undoing a padel point puts the games back and never the point itself, because the log remembers games |
| `PadelRules.ResetLeavesPadelRules` | server/src/domain/matchEngine.ts:224-227 | Resetting a padel engine leaves its rules in place; after one more point rebuilding is no longer the identity |
| `MatchEngine.MatchEngine.RecordPoint` | server/src/domain/matchEngine.ts:275-296 | On the state record, does the specified step, hands the callback the point's events in order, and returns the published state |
| `MatchEngine.MatchEngine.SubtractPoint` | server/src/domain/matchEngine.ts:298-311 | Same, for a correction |
| `MatchEngine.MatchEngine.UndoLast` | server/src/domain/matchEngine.ts:260-268 | Same, for an undo; an empty log is the failure case |
| `MatchEngine.MatchEngine.AddToHistory` | server/src/domain/matchEngine.ts:239-254 | Push, drop the oldest past 20, keep the flag |
| `MatchEngine.MatchEngine.FromState` | server/src/domain/matchEngine.ts:387-436 | A new engine in the state the saved object describes |

## Left out

- Sockets, broadcasts, logging, translations and owner authentication: a request is a step with an owner flag, its reply a value.
- Payload checks on types: requests are typed. Name lengths count characters, not UTF-16 units.
- `getRounds`, `isBye` and round names: views of the state that change nothing.
- Aliasing between the shared snapshot and the engine: the snapshot holds values. In the source it holds the engine's own bracket object after the first save, so inside an event it may run ahead of the model; between events the two are equal.
- Aliasing of the published history, which is the engine's live array: published states are values here.
- Runtime courts are values in an insertion-ordered sequence that the manager reassigns; what two holders of one court object would see of each other is not modelled.
- All other court and club operations (occupying, ending, cost, players, pins): one event that replaces the courts by any courts and schedules a save, as every notified change does.
- The match-won callback runs inside the scoring call in the source; here scoring and the court result are separate steps.
- Failing writes and reads, the savedAt stamp, and the discarding of files of other versions: a disk that cannot be read is the missing file.
- Timers: a flag that says a save is pending, and an event for its expiry. Clock, random tokens and PINs are parameters; that tokens differ is a hypothesis where it is needed.
- The inventory is a map to which one event adds records or newer versions of them, and which the club setup reset empties; wiring without an inventory or coordinator is not modelled.
- Loading a saved tournament into a running server is one more change of the courts.
- What the engine's operations would do to a tree whose matches are missing or out of place: a file with such a bracket is hydrated as it is, but requests are modelled on well-formed brackets only.
- The unused set number of a log entry, the detail score of a score, and the time and player fields events get on their way to the clients.
- RebuiltMatchIsTheSame: asks for rules that keep the padel fields in place, which both sports' rules are proved to do; runs with `reset` are excluded, for the reason in `ResetLeavesPadelRules`.
- EveryRunIsGood: runs start from a server that is already sound, such as an empty one or one restarted under the condition of `RestartIsGoodIff`, and the three wiping requests in them must be harmless; what happens otherwise is in `HandleGoodIff`, `RunRecovers` and `ShutdownAfterAnyRun`.
