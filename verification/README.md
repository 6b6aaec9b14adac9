# Chifoumi Ranked: verified models

A ranked rock-paper-scissors platform, modelled in Dafny: its tournament
brackets, its match sessions, its matchmaking, and its rating ledger with
seasons and match history. Each part follows the code's own statements and
error cases, and its promises are proved for every input, every interleaving or
every run. `dafny verify dfyconfig.toml` checks the whole project.

## The parts

**Tournament bracket** (`PowersOfTwo`, `Sorting`, `Seeding`, `BracketShape`,
`BracketStructure`, `BracketBuilder`, `BracketTheorems`, `GenerateBracket`,
`GenerateRuns`, `Progression`, `ProgressionInvariant`, `Completion`,
`TournamentRuns`).
`BracketShape` says what a bracket should look like from the players alone;
`BracketStructure.Draft` says what each cell holds at every point of the
construction; the class `Builder` runs the construction in place and is proved
to end there. `GenerateRuns` interleaves concurrent generation jobs.
`TournamentRuns` then plays any sequence of deliveries, with games linked to
matches in between. Its main result, `FinishesExactly`, settles for which n and
S a tournament finishes.

**Match session** (`MatchState`, `MatchRuns`, `Redis`, `SessionLock`,
`MatchSession`, `Finalizer`). The state machine and its three mutators as
functions, the token lock and the finalizer as state machines over their
separate steps, so that statements cover every interleaving.

**Matchmaking** (`Presence`, `DirectedMatch`, `Matchmaking`). The shared Redis
keys with each script and call as one atomic step, the services as classes, and
one greedy pass of the pairing worker.

**Ledger and seasons** (`Elo`, `Ledger`, `LedgerRuns`, `SeasonArchive`,
`SeasonReset`, `SeasonRuns`, `History`). The persistence transaction, the reset
job and the mail loop as methods over their rows; retries, duplicates and
crashes as runs; keyset pagination as functions.

## Where the code does less than it seems to promise

- Completion. `create-tournament.dto.ts` lets an organiser choose S, so n may
  be at most S/2. Then a tournament finishes exactly for n = 2 and for
  n = S/2 + 1 - 2^m. Otherwise a pruned match can close it after one game, or
  play stops with a winner waiting in a match whose other slot never fills.
- Power-of-two test. The bitwise test looks at the low 32 bits alone;
  `BitTestExactly` says what it accepts. No bracket size that can be generated
  is affected, because longer arrays cannot be allocated.
- Token lock. The save does not check that the lock is still held. A run is
  serial when no save lands between another call's load and its save, which
  allows crashed holders and expired locks, and for a mutator that leaves a
  trace exactly then (`SerialExactly`). `UntimelyExpiryLosesAnUpdate` is a run
  that loses an update.
- Finalizer. At most one job in every run exactly when the queue never loses an
  answer or keeps completed jobs (`AtMostOneExactly`). The code has completed
  jobs removed, so a lost answer can lead to a second job, and each lost answer
  to one extra job at most.
- Bracket generation. No unique key stops a second bracket; one bracket at most
  in every run exactly when no lock can run out under a working job.
- Joining. The check and the enqueue are separate calls. The late enqueue is
  safe exactly when the user is still in no match.
- Cleanup. Deleting the mappings of a match again is harmless exactly when
  neither player has entered another match since; `SecondCleanupBreaks` is a run.
- Directed matches. A creation that fails after the save releases the claims of
  a live match; the release is safe exactly before the save.
- Ratings may become negative (`RatingsCanGoNegative`). `PersistedExactly` says
  which ended matches are persisted: a negative rating on either side is the
  one obstacle that lies in the ratings, because the K factor refuses it.

## Model

| member | source | states |
|---|---|---|
| `Seeding.SeedPlayersMeaning` | packages/bracket/src/seed-players.ts:8-28 | seeding fails exactly on fewer than two players or a rating that is not finite; otherwise it lists the same players (as a multiset), seeds 1..n in order, ratings non-increasing, and equally rated players in registration order |
| `Sorting.StableSortSorts` | packages/bracket/src/seed-players.ts:25-26 | the sort orders by the comparison, and equal elements keep their order |
| `Seeding.SeedsAreDistinct` | packages/bracket/src/seed-players.ts:25-27 | different registrations become different seeds |
| `Seeding.ComputeBracketSize` | packages/bracket/src/compute-bracket-size.ts:11-37 | the doubling loop returns the power of two with n <= S < 2n, and fails with the right error exactly outside 2..1024 |
| `Seeding.GenerateFirstRound` | packages/bracket/src/generate-first-round.ts:12-57 | pairings are produced exactly for 2 <= n <= S < 2^32 with S a power of two, each other case has its error, and the result is FirstRound |
| `Seeding.EverySeedHasOneSeat` | packages/bracket/src/generate-first-round.ts:37-56 | seed i sits in its own seat of the first round, every occupied seat is the seat of one seed, no two seeds share a seat: seed i + 1 meets seed S - i or a bye |
| `PowersOfTwo.ClearLowestBit` | packages/bracket/src/generate-first-round.ts:59-61 | n & (n - 1) is zero exactly for powers of two |
| `PowersOfTwo.BitTestExactly` | packages/bracket/src/generate-first-round.ts:59-61 | what the bit test really accepts, for every integer: the low 32 bits are zero or a power of two; below 2^32 that means a power of two |
| `PowersOfTwo.BitTestAcceptsThreeTimesTwo32` | packages/bracket/src/generate-first-round.ts:59-61 | 3 * 2^32 passes the test and is no power of two |
| `BracketBuilder.Builder.Build` | apps/job-runner/src/tournaments/build-bracket-structure.ts:28-122 | the construction, statement by statement, ends in Built: each match holds what its players imply (lone players advanced, the one kind of link cut), and the playable first-round matches are listed in order |
| `BracketBuilder.Builder.CreateRounds` | apps/job-runner/src/tournaments/build-bracket-structure.ts:36-53 | log2 S rounds, round r holding S / 2^r empty matches |
| `BracketBuilder.Builder.WireParents` | apps/job-runner/src/tournaments/build-bracket-structure.ts:55-70 | every match below the final is linked to the match at half its position |
| `BracketBuilder.Builder.PlaceFirstRound` | apps/job-runner/src/tournaments/build-bracket-structure.ts:72-113 | every pairing lands on the first-round match of its own position, byes are decided and moved up, and the playable matches are listed |
| `BracketBuilder.Builder.AdvanceUnopposedPlayers` | apps/job-runner/src/tournaments/build-bracket-structure.ts:146-184 | the walk-over loop ends: the first bottom-up sweep reaches the fixpoint, the second changes nothing |
| `BracketBuilder.Builder.Sweep` | apps/job-runner/src/tournaments/build-bracket-structure.ts:149-182 | one sweep settles every match, and on a settled bracket it leaves every cell and reports no progress |
| `BracketBuilder.Builder.PrunePlayableMatchesWithEmptySibling` | apps/job-runner/src/tournaments/build-bracket-structure.ts:202-225 | the pruning pass cuts exactly the links that Cut describes |
| `BracketStructure.EmptyMeansNobody` | apps/job-runner/src/tournaments/build-bracket-structure.ts:227-249 | at every point after the first round is placed, the recursive slot test says exactly that no player starts below the match |
| `BracketStructure.EmptyMeansNobodyInRange` | apps/job-runner/src/tournaments/build-bracket-structure.ts:227-249 | the same test equals: nobody among first-round positions p * 2^r up to (p + 1) * 2^r |
| `BracketStructure.WalkOverCases` | apps/job-runner/src/tournaments/build-bracket-structure.ts:161-172 | a match is a walk-over exactly when one slot is seeded and nobody is below the other |
| `BracketStructure.BuiltIsUnique` | apps/job-runner/src/tournaments/build-bracket-structure.ts:28-122 | the finished bracket is one definite value, BuiltRounds |
| `BracketTheorems.DecidedIffOnePlayer` | apps/job-runner/src/tournaments/build-bracket-structure.ts:82-184 | a match is decided before any game exactly when one player starts below it; that player is the winner and sits in the parent slot given by parity |
| `BracketTheorems.OneTree` | apps/job-runner/src/tournaments/build-bracket-structure.ts:55-70 | before pruning the S - 1 matches form one tree: each climbs to the final in as many steps as there are rounds above, and only the final has no parent |
| `BracketTheorems.CutExactly` | apps/job-runner/src/tournaments/build-bracket-structure.ts:202-225 | which links are pruned, for all 2 <= n <= S: exactly the second-round match at even p with n = 2p + 2, when there are three rounds or more |
| `BracketTheorems.NothingPrunedWhenDense` | apps/job-runner/src/tournaments/build-bracket-structure.ts:202-225 | for n > S/2 nothing is pruned |
| `GenerateBracket.GenerateBracketService.ProcessGenerateBracket` | apps/job-runner/src/tournaments/generate-bracket.service.ts:22-147 | each answer and each refusal happens exactly in its case; stored matches are never replaced; a bracket is generated only for 2 <= n <= S, S a power of two; it is the built bracket; every registration gets its seed, better stored ratings below worse ones, equal ones in registration order, users without a finite rating as if rated 1000 |
| `GenerateBracket.SeedsFollowRatings` | apps/job-runner/src/tournaments/generate-bracket.service.ts:84-102 | the written seeds follow the stored ratings: of two users the better rated, or the earlier registered of two equally rated, has the smaller seed; no rating or one that is not finite counts as 1000 |
| `GenerateBracket.GenerateBracketService.GenerateUnderLock` | apps/job-runner/src/tournaments/generate-bracket.service.ts:59-143 | under the lock: the matches are counted again, the exact error cases, and on success the built bracket of the seeded registrations |
| `GenerateRuns.GeneratedAtMostOnce` | apps/job-runner/src/tournaments/generate-bracket.service.ts:45-147 | over every interleaving of concurrent jobs, retries and crashes: while no lock runs out under a working job, one bracket is stored at most |
| `GenerateRuns.ReleaseFreesOnlyItsOwn` | apps/job-runner/src/tournaments/generate-bracket.service.ts:144-146 | releasing never frees another job's lock, whatever expired before |
| `GenerateRuns.GeneratedOnceExactly` | apps/job-runner/src/tournaments/generate-bracket.service.ts:45-147 | at most one bracket in every run exactly when no lock can run out under a working job; otherwise a run stores two |
| `Progression.ProgressionService.ProcessMatchEnded` | apps/job-runner/src/tournaments/tournament-progression.service.ts:43-67 | a delivery does what Deliver says: the five results, the rows, the match to announce |
| `Progression.ProgressionService.AdvanceWinner` | apps/job-runner/src/tournaments/tournament-progression.service.ts:143-191 | decides the match, fills the slot chosen by the slot rule, and puts the rows back when the parent is missing |
| `ProgressionInvariant.SlotRuleExactly` | apps/job-runner/src/tournaments/resolve-feeder-target-slot.ts:15-47 | for every parent: no slot exactly when the winner is there already or both slots are taken, otherwise a free slot, the parity one when it is free |
| `ProgressionInvariant.FallbackNeverTaken` | apps/job-runner/src/tournaments/resolve-feeder-target-slot.ts:15-47 | on a first delivery the slot rule always picks the parity slot: neither fallback nor refusal ever happens |
| `ProgressionInvariant.PlayedKeepsWired` | apps/job-runner/src/tournaments/tournament-progression.service.ts:143-191 | a game keeps the wiring: a slot is filled exactly when its feeder is decided, with that feeder's winner |
| `ProgressionInvariant.OneSlotPerRound` | apps/job-runner/src/tournaments/tournament-progression.service.ts:143-191 | no player is in two slots of one round, in any wired bracket |
| `ProgressionInvariant.HomeOf` | apps/job-runner/src/tournaments/tournament-progression.service.ts:143-191 | a player found in a slot started below that slot's feeder and won it |
| `Completion.LoserIsOut` | apps/job-runner/src/tournaments/tournament-progression.service.ts:143-191 | the loser of a decided match sits in no undecided match |
| `Completion.WonTheWay` | apps/job-runner/src/tournaments/tournament-progression.service.ts:143-191 | a player in a slot won every match on the way there |
| `Completion.DecidedSawEveryGame` | apps/job-runner/src/tournaments/tournament-progression.service.ts:43-191 | a decided match above c players has seen exactly c - 1 games below it |
| `Completion.ReadyBelow` | apps/job-runner/src/tournaments/tournament-progression.service.ts:43-191 | below an undecided match where nobody starves there is a match that can be played |
| `TournamentRuns.DeliveryStep` | apps/job-runner/src/tournaments/tournament-progression.service.ts:43-191 | one delivery of any kind keeps the invariant, never misses the parent row, and either changes nothing or decides one match |
| `TournamentRuns.EitherMayWin` | apps/job-runner/src/tournaments/tournament-progression.service.ts:43-191 | either player of a ready match may win it, whether the result names the match or a game linked to it: the match is decided for that player, who moves to the parity slot above, or the tournament closes with that winner |
| `TournamentRuns.DecidesOnlyNamed` | apps/job-runner/src/tournaments/tournament-progression.service.ts:69-96 | a result that decides anything decides the ready match it names, for its winner, and no other match |
| `TournamentRuns.LinkedGameIsFound` | apps/job-runner/src/tournaments/tournament-progression.service.ts:92-95 | a game newly linked to a match without one finds that match without naming it |
| `TournamentRuns.RunKeepsInv` | apps/job-runner/src/tournaments/tournament-progression.service.ts:43-191 | over whole runs, with games being linked to their matches in between, the invariant holds and games are counted one by one |
| `TournamentRuns.ReplayChangesNothing` | apps/job-runner/src/tournaments/tournament-progression.service.ts:54-56 | delivering any finished game a second time right away changes nothing |
| `TournamentRuns.ReplayedLater` | apps/job-runner/src/tournaments/tournament-progression.service.ts:54-56 | a result that decided its match, delivered again after any further events, answers already_advanced and changes nothing |
| `TournamentRuns.SoundRuns` | apps/job-runner/src/tournaments/tournament-progression.service.ts:43-191 | in every reachable state of a sound field: completed exactly when the last match is decided, exactly after n - 1 games, exactly when nothing is left to play; the recorded champion is that match's winner |
| `TournamentRuns.FinishesExactly` | apps/job-runner/src/tournaments/tournament-progression.service.ts:43-191 | the completion theorem, both ways: a tournament finishes as it should if and only if n > S/2, or n = 2, or n = S/2 + 1 - 2^m for some m |
| `TournamentRuns.EveryRunCanFinish` | apps/job-runner/src/tournaments/tournament-progression.service.ts:43-191 | never stuck: from every reachable state of such a field there is a way to play on to the champion, after n - 1 games in all |
| `TournamentRuns.SoundIffSizeFits` | apps/job-runner/src/tournaments/build-bracket-structure.ts:202-249 | the size condition holds exactly when no link but the last one is cut and nobody waits for an opponent who cannot come |
| `TournamentRuns.FitsExactly` | apps/job-runner/src/tournaments/build-bracket-structure.ts:227-249 | when c players filling a subtree from the left all find opponents: c = 2^r + 1 - 2^m |
| `TournamentRuns.SparseStarvation` | apps/job-runner/src/tournaments/build-bracket-structure.ts:227-249 | for n <= S/2, nobody below a match starves exactly when its players fit in this sense |
| `TournamentRuns.PrunedClosesEarly` | apps/job-runner/src/tournaments/tournament-progression.service.ts:62-64 | a tournament with any other pruned match does not finish: that match can close it after one game |
| `TournamentRuns.StarvedNeverCloses` | apps/job-runner/src/tournaments/tournament-progression.service.ts:62-66 | with a starving match and nothing pruned, the tournament does not finish: play can stop while it stays open |
| `TournamentRuns.SparseFieldsThatDoNotFinish` | apps/job-runner/src/tournaments/tournament-progression.service.ts:62-66 | 3, 4 or 6 players in 16 slots do not finish |
| `TournamentRuns.SlotsFollowFeeders` | apps/job-runner/src/tournaments/tournament-progression.service.ts:143-191 | after any run a slot holds its feeder's winner, and is empty exactly while the feeder is open |
| `TournamentRuns.AnnouncedWhenReady` | apps/job-runner/src/tournaments/tournament-progression.service.ts:172-190 | a match is announced by exactly the delivery that makes it ready |
| `TournamentRuns.EverybodyElseLost` | apps/job-runner/src/tournaments/tournament-progression.service.ts:113-141 | one champion: when a fitting tournament is completed, every other player has lost a match |
| `MatchState.ResolveMoves` | apps/game-service/src/rps/resolve.ts:11-23 | a draw exactly on equal moves, and the three winning pairs for A |
| `MatchRuns.StepKeepsValid` | apps/game-service/src/match/match-play.service.ts:97-285 | every mutator keeps a valid stored state valid, and keeps players and ids |
| `MatchRuns.RunsStayValid` | apps/game-service/src/match/match-play.service.ts:97-285 | every reachable stored state: never RESOLVING; live in rounds 1..5 with rounds 1..currentRound-1 recorded, each with the rock-paper-scissors winner, scores counting them and at most 1, never both plays pending; ended states as their end reason demands, scores always counting the rounds played out |
| `MatchRuns.PlayAcceptedExactly` | apps/game-service/src/match/match-play.service.ts:97-167 | a play is accepted exactly from a player of the match, for the current round, once, with a valid move; each of the four refusals exactly in its case |
| `MatchRuns.PlayRecordsTheMove` | apps/game-service/src/match/match-play.service.ts:97-151 | an accepted play puts down the very move submitted, for the one who submitted it, and leaves the opponent's; the round is recorded, with its number and time, exactly when both moves are there |
| `MatchRuns.RoundIsScored` | apps/game-service/src/match/match-play.service.ts:97-167 | from the two strings submitted to the score, in either order of play: the round goes to A, to B or to nobody by the three winning pairs, and the winner's score alone goes up by one |
| `MatchRuns.TimeoutExactly` | apps/game-service/src/match/match-play.service.ts:228-301 | a deadline ends the match exactly when it is the current round's, for the player who moved, or for nobody; scores stay, and pending moves are recorded with the round |
| `MatchRuns.DeadlinesFollowRounds` | apps/game-service/src/match-session/match-state-machine.ts:70-79 | over whole runs, a round being played ends twelve seconds after the match's start or the last round's end |
| `MatchRuns.ForfeitNamesTheOther` | apps/game-service/src/match/match-play.service.ts:192-226 | a disconnect forfeit names the player who stayed |
| `MatchRuns.EndedIsFinal` | apps/game-service/src/match-session/match-state-machine.ts:23-26 | no step changes an ended state |
| `MatchRuns.EveryStepDescends` | apps/game-service/src/match-session/match-state-machine.ts:57-79 | every step changes nothing or goes down in (live, 5 - round, empty plays); every accepted play goes down |
| `MatchRuns.AtMostTenPlays` | apps/game-service/src/match-session/match-state-machine.ts:57-79 | at most ten plays are accepted in a match, over any run |
| `MatchRuns.SwapCommutes` | apps/game-service/src/match/match-play.service.ts:103-285 | seen from the other seat, a step has the mirrored effect and the same error |
| `MatchRuns.SeatsAreEqual` | apps/game-service/src/match/match-play.service.ts:97-285 | over whole runs, exchanging the seats exchanges the result and nothing else |
| `Redis.RedisService.Setnx` | apps/game-service/src/redis/redis.service.ts:65-68 | the key is taken only when free, and other keys stay |
| `Redis.RedisService.ReleaseLock` | apps/game-service/src/redis/redis.service.ts:70-78 | compare and delete: only the key holding this very token is freed |
| `SessionLock.InterleavingsAreSerial` | apps/game-service/src/match-session/match-session.service.ts:104-127 | for every mutator and every run, whatever locks expire and whoever crashes: when no save lands between another call's load and its save, the stored state is what the saving mutators produce one after another in save order; nobody saves twice, and a call reports success exactly when it saved |
| `SessionLock.SerialExactly` | apps/game-service/src/match-session/match-session.service.ts:104-127 | for a mutator that leaves a trace of every save, the converse too: the run is serial exactly when no save is overtaken |
| `SessionLock.HoldersAreUndisturbed` | apps/game-service/src/match-session/match-session.service.ts:104-127 | saving while the lock still holds one's token is enough, also when other holders crashed and their locks ran out |
| `SessionLock.OneInsideAtATime` | apps/game-service/src/match-session/match-session.service.ts:104-127 | while no lock runs out under a call inside, one call is inside at a time and saves under its own lock |
| `SessionLock.LeavingFreesOnlyItsOwn` | apps/game-service/src/match-session/match-session.service.ts:124-126 | releasing with one's own token never frees another call's lock, whatever expired before |
| `SessionLock.UntimelyExpiryLosesAnUpdate` | apps/game-service/src/match-session/match-session.service.ts:104-127 | a run in which a lock runs out under its holder, both calls report success, and one update is lost |
| `MatchSession.SessionIsSerial` | apps/game-service/src/match-session/match-session.service.ts:104-127 | for the mutators of a match: any interleaving in which no save is overtaken, expiries included, stores the state of the saved calls run one after another, and it is valid |
| `MatchSession.MatchSessionService.MutateState` | apps/game-service/src/match-session/match-session.service.ts:104-127 | one undisturbed call: lock, not-found and refusal cases exactly; the mutator's result is stored only when it did not throw; the lock is free again |
| `Finalizer.PublishedOnce` | apps/game-service/src/match/match-play.service.ts:355-402 | over every interleaving of round ends, timeouts and disconnects with failures, retries and guard releases: every job carries the stored ended state, and there are at most one more jobs than lost answers |
| `Finalizer.FinalizesExactly` | apps/game-service/src/match/match-play.service.ts:179-226 | which calls go on to finalize: exactly those that end the match, and a deadline that finds it ended |
| `Finalizer.AtMostOnePublication` | apps/game-service/src/match/match-play.service.ts:355-402 | as long as every answer of the queue arrives, at most one job is ever created |
| `Finalizer.AtMostOneExactly` | apps/game-service/src/match/match-ended-publisher.service.ts:55-64 | at most one job in every run exactly when the queue never loses an answer or keeps completed jobs; the code asks for completed jobs to be removed |
| `Finalizer.LostAnswerPublishesTwice` | apps/game-service/src/match/match-play.service.ts:391-401 | a lost answer is enough for a second job, once the first is completed and removed |
| `Presence.StepKeepsInv` | apps/game-service/src/matchmaking/matchmaking-worker.service.ts:38-57 | join, leave, pair, claim, create, release, finish, pair locks taken and expiring: each keeps queue, details, mappings and matches consistent |
| `Presence.QueueAndMatchesStayApart` | apps/game-service/src/directed-match/directed-match.constants.ts:12-37 | over whole runs: nobody is both queued and in a match, every live match is mapped by exactly its two players (though the pairing script never checks that), queue and details name the same users |
| `Presence.RetryFindsTheSameMatch` | apps/game-service/src/directed-match/directed-match.service.ts:156-176 | a retry of a live tournament match answers with the same match id, changes nothing, and no second claim of it can succeed |
| `Presence.LeaveUndoesJoin` | apps/game-service/src/matchmaking/matchmaking.service.ts:27-81 | joining succeeds exactly for an allowed user who neither waits nor plays, stores that user's own rating and details, and leaving restores the store |
| `Presence.EverythingEnds` | apps/game-service/src/matchmaking/matchmaking.service.ts:77-81 | nobody is held for good: leaving ends the waiting, an expired pair lock is free, a finished match or a released claim frees exactly its two players; a finished tournament match keeps its key, a released one does not |
| `Presence.ReleaseUndoesClaim` | apps/game-service/src/directed-match/directed-match.service.ts:178-188 | releasing a claim gives everything back but the two places in the queue |
| `Presence.LateEnqueueExactly` | apps/game-service/src/matchmaking/matchmaking.service.ts:58-71 | joinQueue checks first and enqueues later: the late enqueue is safe exactly when the user is still in no match |
| `Presence.JoinRace` | apps/game-service/src/matchmaking/matchmaking.service.ts:28-71 | a directed claim in between leaves a user queued and in a match |
| `Presence.SecondCleanupExactly` | apps/game-service/src/match-session/match-session.service.ts:138-140 | deleting the mappings of a match a second time is harmless exactly when neither player has moved on |
| `Presence.SecondCleanupBreaks` | apps/game-service/src/match-session/match-session.service.ts:138-140 | a run (pair, finish, join again, pair again) after which the repeated cleanup takes away the new match's mapping |
| `Presence.LateReleaseExactly` | apps/game-service/src/directed-match/directed-match.service.ts:107-110 | a failed creation may release its claims exactly when the match has not been saved |
| `Presence.LateReleaseBreaks` | apps/game-service/src/directed-match/directed-match.service.ts:107-110 | a run in which a creation fails after the save: a live match stays, and its players are mapped to nothing |
| `DirectedMatch.DirectedMatchService.StartMatch` | apps/game-service/src/directed-match/directed-match.service.ts:54-111 | one undisturbed call: a new match exactly when players, pair and tournament match are free; the same id for a match being played; every error case; nothing else changes; the invariant breaks exactly when the creation fails after the save |
| `DirectedMatch.DirectedMatchService.ClaimPlayers` | apps/game-service/src/directed-match/directed-match.service.ts:117-154 | the three outcomes of a claim, exactly, and the store they leave |
| `DirectedMatch.MatchmakingService.JoinQueue` | apps/game-service/src/matchmaking/matchmaking.service.ts:27-75 | an undisturbed join is the atomic step, and a join during another one is refused |
| `DirectedMatch.MatchmakingService.LeaveQueue` | apps/game-service/src/matchmaking/matchmaking.service.ts:77-81 | queue place and details go together; the answer says whether the user was queued |
| `Matchmaking.WindowsExactly` | apps/game-service/src/matchmaking/elo-window.ts:5-30 | who may be paired, for all ratings and waits: at most 50 apart, 100 once one of the two waited 10 s, 200 once one waited 30 s, anybody once one waited 60 s |
| `Matchmaking.CompatibleLater` | apps/game-service/src/matchmaking/elo-window.ts:5-30 | the rating windows only widen: a compatible pair stays compatible while both wait, from either side |
| `Matchmaking.Worker.ListQueueMembers` | apps/game-service/src/matchmaking/matchmaking.service.ts:97-116 | exactly the queued users with complete details, each once, oldest first |
| `Matchmaking.Worker.FindOpponent` | apps/game-service/src/matchmaking/matchmaking-worker.service.ts:133-157 | the first member who is eligible, or nobody exactly when none is |
| `Matchmaking.Worker.TryPairPlayers` | apps/game-service/src/matchmaking/matchmaking-worker.service.ts:159-221 | succeeds exactly when the pair lock is free and both still wait, then seats the two in a new match; otherwise changes nothing |
| `Matchmaking.Worker.Tick` | apps/game-service/src/matchmaking/matchmaking-worker.service.ts:91-131 | one pass: pairs are disjoint, compatible, each in a match of its own; the queue shrinks by twice their number and nobody else is touched; whoever is left over next to a compatible member was refused, another worker holding the lock of a pair with a compatible member |
| `Matchmaking.Worker.PairMembers` | apps/game-service/src/matchmaking/matchmaking-worker.service.ts:107-126 | the loop: after i members, each of them is paired, has no compatible partner left, or was refused |
| `Matchmaking.LeftOversDoNotMatch` | apps/game-service/src/matchmaking/matchmaking-worker.service.ts:110-126 | when no lock of a pair of members was held, the greedy pass leaves no compatible pair |
| `Matchmaking.LongWaiterIsAlone` | apps/game-service/src/matchmaking/elo-window.ts:5-16 | a member left over after waiting sixty seconds was refused or is the only one left |
| `Elo.KFactorNeverGrows` | packages/elo/src/kFactor.ts:3-17 | defined exactly for non-negative input; 16 exactly above 2400, otherwise 40 exactly below 30 games, otherwise 32; more games or a higher rating never raise it |
| `Elo.RoundIsNearest` | packages/elo/src/computeElo.ts:24-25 | rounding goes to the nearest integer, and up from the middle |
| `Elo.DeltaBounds` | packages/elo/src/computeElo.ts:10-33 | a winner gains 0..K and a loser loses 0..K, a draw moves at most K/2 either way, and new ratings are old ratings plus deltas |
| `Elo.DeltasNearlyCancel` | packages/elo/src/computeElo.ts:24-25 | the two rounded deltas cancel up to max(1, the gap between the K factors); with equal K factors the sum is 0 or 1 |
| `Elo.SeatsDoNotMatter` | packages/elo/src/computeElo.ts:10-33 | listing the players the other way round gives each the same result |
| `Elo.SoftResetInIntegers` | packages/elo/src/softResetRating.ts:11-13 | on whole ratings the reset is floor((3r + 1002) / 4) |
| `Elo.SoftResetShape` | packages/elo/src/softResetRating.ts:11-13 | it keeps the order of ratings, stays put exactly on 999..1002, and moves strictly closer from anywhere else |
| `Elo.ResetsSettle` | packages/elo/src/softResetRating.ts:11-13 | repeated resets land in 999..1002 and stay on the rating they land on |
| `Ledger.LedgerStore.PersistMatchEnded` | apps/job-runner/src/persistence/match-persistence.service.ts:16-137 | the transaction statement by statement has the effect of Persist, or none |
| `Ledger.LedgerStore.Record` | apps/job-runner/src/persistence/match-persistence.service.ts:50-134 | the writes in their order give the match, the link, the rounds, both ratings and two history rows |
| `Ledger.LedgerStore.UpsertRounds` | apps/job-runner/src/persistence/match-persistence.service.ts:79-99 | the loop of upserts has the effect of WithRounds |
| `Ledger.RoundsExactly` | apps/job-runner/src/persistence/match-persistence.service.ts:79-99 | upserting overwrites nothing that is stored, stores every round of the game, and keeps the first of a repeated number |
| `LedgerRuns.PersistedRows` | apps/job-runner/src/persistence/match-persistence.service.ts:42-134 | everything a persisted match writes, from the payload and the old rows: the match row with scores and end, new ratings as the old ones plus the rounded K * (score - expected) with 1 for the winner, 0 for the loser and 1/2 for both without one, one more game each, two history rows; nobody else's row changes |
| `LedgerRuns.WinnersDoNotDrop` | apps/job-runner/src/persistence/match-persistence.service.ts:42-48 | the winner of a persisted match never drops and the loser never rises |
| `LedgerRuns.InertStays` | apps/job-runner/src/persistence/match-persistence.service.ts:16-137 | a job that has no effect now never has one later, whatever else is persisted |
| `LedgerRuns.DeduplicatedMeaning` | apps/job-runner/src/persistence/match-persistence.service.ts:16-26 | deduplicating keeps exactly one attempt of every job that was attempted without a crash |
| `LedgerRuns.DuplicatesDoNotMatter` | apps/job-runner/src/persistence/match-persistence.service.ts:16-137 | any sequence of attempts with duplicates, retries and crashes leaves the ledger of its deduplicated sequence |
| `LedgerRuns.RatingsAddUp` | apps/job-runner/src/persistence/match-persistence.service.ts:101-134 | between resets, from any ledger: history is only appended to, each rating is the rating at the reset plus the sum of the user's deltas since, the new rows chain before to after, and games played grow with the persisted matches |
| `LedgerRuns.PersistedExactly` | apps/job-runner/src/persistence/match-persistence.service.ts:16-77 | an ended match is persisted exactly when it is new, its tournament match (if any) exists and has no game, and neither player has a negative rating; otherwise nothing changes |
| `LedgerRuns.RatingsCanGoNegative` | apps/job-runner/src/persistence/match-persistence.service.ts:42-48 | an input: of two users at 10 points the loser drops to -10, and no later match of theirs is persisted |
| `LedgerRuns.NegativeIsFrozen` | apps/job-runner/src/persistence/match-persistence.service.ts:42-48 | no attempt changes the rating row of a user with a negative rating |
| `LedgerRuns.PersistLinks` | apps/job-runner/src/persistence/match-persistence.service.ts:29-77 | a persisted game is new, and is linked to its tournament match, which had no link |
| `LedgerRuns.OneGamePerTournamentMatch` | apps/job-runner/src/persistence/match-persistence.service.ts:29-37 | a link never changes, and no second game of that tournament match is ever persisted |
| `SeasonArchive.FirstLeague` | packages/leagues/src/getLeagueForRating.ts:4-20 | the league found is the first that holds the rating, with no bad configuration before it, and conversely |
| `SeasonArchive.LeagueExactly` | packages/leagues/src/getLeagueForRating.ts:4-20 | with contiguous leagues a rating has a league exactly from the lowest bound up, and only one |
| `SeasonArchive.ArchiveMeaning` | apps/job-runner/src/seasons/season-reset.service.ts:97-130 | one standing per rating row, ranks 1..N by non-increasing rating and then by games played |
| `SeasonArchive.StandingsFollowRows` | apps/job-runner/src/seasons/season-reset.service.ts:116-129 | there are standings exactly when every rating has a league; the i-th is that of the i-th ranked row, with its league, rank i + 1, not rewarded |
| `SeasonArchive.MarkFirst` | apps/job-runner/src/seasons/season-reset.service.ts:173-215 | marking the first pending standing leaves exactly the others pending, in order |
| `SeasonReset.SeasonResetService.ProcessSeasonReset` | apps/job-runner/src/seasons/season-reset.service.ts:24-57 | one undisturbed delivery: every result exactly in its case; standings archived and ratings reset once, rewards completed, the next season started |
| `SeasonReset.ActivationExactly` | apps/job-runner/src/seasons/season-reset.service.ts:143-166 | nothing changes while a season is active or when none is upcoming; otherwise the first upcoming season and no other becomes the only active one; a closed season is never reopened |
| `SeasonReset.SeasonResetService.ArchiveStandingsAndSoftReset` | apps/job-runner/src/seasons/season-reset.service.ts:97-141 | the archive transaction: all standings and every rating reset, or nothing when a rating has no league |
| `SeasonReset.SeasonResetService.EnqueuePendingRewardMails` | apps/job-runner/src/seasons/season-reset.service.ts:168-220 | the batch loop ends with every standing marked and otherwise unchanged, and each pending standing mailed once in rank order |
| `SeasonRuns.StepKeepsInv` | apps/job-runner/src/seasons/season-reset.service.ts:24-220 | each statement of the job, each crash, each redelivery and each rating update in between keeps the invariant |
| `SeasonRuns.ArchivedOnce` | apps/job-runner/src/seasons/season-reset.service.ts:24-220 | whatever the deliveries and crashes: archived and reset at most once, standings kept but for the reward mark, a marked standing was mailed, and beyond one mail per standing there is at most one per crash and one just sent |
| `SeasonRuns.UndisturbedJob` | apps/job-runner/src/seasons/season-reset.service.ts:38-56 | a job left alone ends, and its statements one by one do what one call of the service promises |
| `SeasonRuns.MailLoopEnds` | apps/job-runner/src/seasons/season-reset.service.ts:173-220 | from any point of the mail loop a worker left alone ends with every standing marked and each one still unmailed mailed once, in rank order |
| `SeasonRuns.SeasonsOpenInTurn` | apps/job-runner/src/seasons/season-reset.service.ts:143-166 | whatever the deliveries and crashes: only upcoming seasons change, and one active season at most stays so |
| `SeasonRuns.NeverResetAgain` | apps/job-runner/src/seasons/season-reset.service.ts:44-52 | once archived, no later step changes the archive or resets a rating |
| `SeasonRuns.LeavesEverybodyRewarded` | apps/job-runner/src/seasons/season-reset.service.ts:173-220 | a worker that leaves the mail loop without crashing leaves every standing rewarded |
| `History.NextPageContinues` | apps/api/src/me/me-history.service.ts:32-50 | the selection after a match is exactly what follows it in the whole selection, ties on endedAt included |
| `History.CrawlFrom` | apps/api/src/me/me-history.service.ts:29-74 | from any cursor, the pages put together are the selection, and there are as many as it needs |
| `History.CrawlSeesEveryMatchOnce` | apps/api/src/me/me-history.service.ts:29-74 | following nextCursor to null yields every ended match of the user exactly once, newest first, in max(1, ceil(N / limit)) pages |

## Left out

- BracketBuilder.Builder.Build: the drafts are values inside the array of rounds that the builder reassigns, so aliasing between draft objects is not captured; the code never shares a draft between two places.
- Progression.ProgressionService.ProcessMatchEnded: each delivery is one atomic step; two deliveries of sibling matches reading the same parent row at once are not modelled, and neither is the notification that follows a commit.
- TournamentRuns.FinishesExactly: a game counts when it decides a match; a drawn game names no winner and leaves its match ready, and starting another game for that match is not part of this model.
- GenerateBracket.GenerateBracketService.ProcessGenerateBracket: one undisturbed call; concurrent jobs are the steps of GenerateRuns, which keeps the number of brackets and not their contents. Mails to the registered players are left out.
- Seeding.ComputeBracketSize: registration counts are integers; the check for fractional counts is not modelled.
- SessionLock.InterleavingsAreSerial: a lock may expire at any step and a crashed call takes no further step; the stored state itself does not expire.
- SessionLock.SerialExactly: the converse is stated for a mutator that records its saves; a mutator that writes the same state whatever it read would hide an overtaken save.
- MatchSession.MatchSessionService.MutateState: unreadable stored JSON counts as absent, as in the code; keys do not expire.
- Finalizer.PublishedOnce: broadcasts, timers and metrics are one step that may fail; the queue's job id check is modelled, its retries of a taken job are in the ledger runs.
- Presence.QueueAndMatchesStayApart: a join is one step, a finished match is cleaned up once, and a creation fails before its save; the exact statements on late enqueues, second cleanups and late releases say what happens otherwise. Expiry of user mappings and match keys is left out; pair locks may expire.
- DirectedMatch.DirectedMatchService.StartMatch: the call is undisturbed, and its input checks enter as their verdicts.
- Matchmaking.Worker.Tick: the pass is undisturbed by other services, and members who joined at the same instant may be listed in any order.
- Ledger.LedgerStore.PersistMatchEnded: transactions are atomic and serial, so the unique-constraint conflict of two concurrent transactions is the already-exists case; statements that run together are ordered.
- Elo.DeltaBounds: arithmetic is over the reals with the expected score as a number in 0..1; floating-point rounding and the logistic formula itself are left out.
- SeasonReset.SeasonResetService.ProcessSeasonReset: the season to reset is given; choosing it, closing an expired season and the mail texts are left out, and so is the league table's own maintenance.
- SeasonRuns.ArchivedOnce: the lock admits one worker at a time, and a crashed worker's lock is free again before the next delivery.
- History.CrawlSeesEveryMatchOnce: the set of ended matches does not change while pages are followed; UUIDs and instants compare as numbers; the cursor's text encoding and the mapping of a row to an item are left out.
- Match and tournament ids are drawn in order or named by their place, where the code draws random UUIDs: only their being different matters.
- Clocks, rate limiter verdicts and the presence of a socket are inputs; the retry loop and back-off of a submitted play are repeated calls.
- Nest modules, controllers, DTO checks, metrics, logging, sockets, pub/sub, gRPC, authentication, the leaderboard cache, mail templates, seed scripts and the web front.
- "At most one active season" when closing a season overlaps a reset: the two operations are separate jobs here and only the reset is modelled.
