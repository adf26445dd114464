# Match server: model and proofs

The server pairs waiting users, runs a short tick-based session for each pair, stores one result per session and moves
Elo points from the loser to the winner. Several objects with a mutex each and one strand per session take part, and
each is correct only because of what the others guarantee. This project models that pipeline and, beside it, the bounded
send queue of a connection, the login rate limiter and the token table, and proves what they keep over all runs.

`dafny verify dfyconfig.toml` checks the whole project.

## How the model is built

Every core object is modelled twice. Its *specification* is a set of functions on values; its *object* is a class with the
fields of the source, whose methods are proved to do what those functions say. The theorems are about the functions, and
through the contracts of the methods they hold of the objects.

| files | content |
|---|---|
| `Basics`, `Sorting` | options, choosing from sets, sorting by a comparator, when a sorted result is unique |
| `Elo`, `EloFormula` | the rounded gain over the integers; its agreement with the formula over the reals |
| `Ratings`, `RatingService`, `Leaderboard` | entries, the match update, conservation; ranking and pages |
| `Simulation`, `SimulationLog`, `Confluence` | the tick simulation; its refinement to a sorted log; interleavings |
| `Sessions`, `SessionManager`, `Results` | contexts, winner, session tables, exactly-once finalization |
| `MatchQueue`, `MatchQueueService`, `QueueHistory` | the queue with its index; its service; the fate of every join |
| `Protocol`, `StrandSteps`, `SessionRuns`, `Serial`, `Safety` | the pipeline as interleaved atomic steps, and its invariant |
| `Serializability`, `NamedSessions`, `UserEvents`, `QueueProjection`, `Uninterrupted` | what holds of every run: standings, submissions, events, pairing, and the link to the methods |
| `OutboundQueue`, `RateLimiter`, `TokenStore` | the three bounded components beside the pipeline |

In `Protocol` a step is what the source does under one lock or in one strand handler: the check and the push of a join
are two steps under the queue mutex, expiry, each pairing and the release of the mutex are separate, a submission first
looks its session up and later runs on the strand, and the end of a session is split into its last tick, saving, four
naming calls, the match and the final erase. Steps of all sessions, joins, cancellations and registrations interleave
freely between them. `Uninterrupted` shows that without interruption these steps do what the class methods promise.

The gain is defined without rounding error: with x = winner - loser it is the number of k in 1..32 with
(65 - 2k)^400 > 10^x (2k - 1)^400, a negative power of ten moved to the other side. `EloFormula` proves that this is what
`ExpectedScore`, `ApplyElo` and rounding half away from zero compute when the power of ten is exact.

## What the code does differently from what one might expect

- The leaderboard offset `(page - 1) * size` is computed in 64 bits. The handler accepts every positive page number, so
  a huge page can wrap around and show the first users (`Leaderboard.HugePageWrapsToTheFirst`).
  `Leaderboard.WordPageIsIdealExactly` says exactly when the page is right.
- The rate limit holds per fixed window. Across a window boundary up to twice the limit less one passes within one
  window length, so the limit holds per interval only for an empty window or a limit of at most one attempt
  (`RateLimiters.PlainLimitHoldsExactly`, `RateLimiters.MostInOneWindow`, `RateLimiters.MostIsReached`).
- Lazy expiry of tokens is invisible to token checks, but the answer of a logout reveals whether an expired token was
  already cleaned up by somebody else's login (`TokenStore.LogoutRevealsCleanup`). `TokenStore.LogoutAgreesExactly`
  says exactly when it does not.
- The design documents say that the first two users in the queue are paired immediately
  (design/server/v0.5.0-match-session.md:10, design/protocol/contract.md:175). The code pairs them on the next timer
  tick of the queue (`QueueHistory.PairingWaitsForTheTimer`, with `QueueHistory.TwoUsersWait` as the input).
- The contract promises that an input naming an ended session is refused as "session_not_found"
  (design/protocol/contract.md:186). The code routes by user id and never compares the session id the input carries, so
  once the user plays again the input is taken by the later session (`NamedSessions.LateInputIsTaken`).
  `NamedSessions.EndedNamesAreNotFoundExactly` says exactly when the promise holds, and
  `NamedSessions.RoutedAsNamedExactly` when an input reaches the session it names.

## Model
| member | source | states |
|---|---|---|
| `Serializability.FinalizationIsSerializable` | server/src/session_manager.cpp:194-207 | In every interleaving of all steps of all sessions, the queue and the registrations: whenever no finalization is half done, every user's rating, wins and losses equal those of applying the saved records one after the other in the order of saving. |
| `Serializability.StandingsAreAlwaysSerial` | server/src/result_service.cpp:16-30 | Even in the middle of finalizations the standings are such a serial fold, over the records whose match was applied so far. |
| `Serializability.RatingIsConserved` | server/src/rating.cpp:39-48 | In every reachable state, mid-finalization included, the ratings sum to 1000 times the number of entries. |
| `Serializability.StandingsCountRecords` | server/src/rating.cpp:45-48 | When no finalization is half done: a user's wins are the saved records the user won, wins plus losses the records the user played in, and total wins = total losses = number of records. |
| `Serializability.LiveSessionsShareNobody` | server/src/session_manager.cpp:44-62 | Two sessions alive at once never share a user. |
| `Serializability.RatedBeforeTheNextSession` | server/src/session_manager.cpp:201-207 | Whoever stands in the queue has no session left that is not closed: nobody is paired again before the previous rating update was applied. |
| `Serializability.TablesAgreeInEveryRun` | server/src/match_queue.cpp:16-33 | In every reachable state: the index is exactly that of a duplicate-free queue, the user table is exactly the inverse of the live sessions' participants (two different users each), and nobody is both queued and in a session, although a finishing session may erase its users inside a join. |
| `Serializability.UserTableLeadsToSessions` | server/src/session_manager.cpp:79-84 | The second "session_not_found" answer is unreachable: the user table always leads to a session in the table. |
| `Serializability.SubmissionsReachTheirSession` | server/src/session_manager.cpp:72-117 | The "not_participant" answer is unreachable: a submission that found its session is refused as closed or gets the verdict of the simulation. |
| `NamedSessions.TargetIsTheLiveSession` | server/src/session_manager.cpp:72-86 | In every reachable state a submission is routed to its user's live session, and to none exactly if there is none. |
| `NamedSessions.RoutedAsNamedExactly` | server/src/session_manager.cpp:72-86 | In every reachable state an input goes to the session it names if and only if its user takes part in that session and it is live; otherwise it goes to the live session of its user, if any. |
| `NamedSessions.EndedNamesAreNotFoundExactly` | server/src/session_manager.cpp:72-95 | An input of a participant naming an ended session is answered "session_not_found" if and only if none of the user's sessions is live; while the named one is being finalized the answer is "session_closed". |
| `NamedSessions.LateInputIsTaken` | server/src/session_manager.cpp:72-117 | The input for which the promise fails, for every number of ticks and every two users: a run after which an input naming the closed first session is accepted by the user's second one. |
| `Serializability.TranscriptOfEverySession` | server/src/session_manager.cpp:120-171 | At every moment a session has sent exactly: created, started at tick 0, one state per tick with the replay of the inputs accepted for it, and ended iff the last tick was handled; the sent ticks equal the simulation tick and the players are the participants. |
| `UserEvents.SessionsAreToldInTurn` | server/src/session_manager.cpp:120-171 | In every interleaving the events a user is sent are the messages of the own sessions, session by session in the order of creation, and all but the last of these are complete transcripts from creation to end. |
| `UserEvents.StrandTells` | server/src/session_manager.cpp:89-201 | A strand step adds what it broadcasts to the end of what the participants were sent, because a session that still speaks is the last of its users. |
| `Serializability.TicksRunOut` | server/src/session_manager.cpp:157-170 | Each timer tick of a running session decreases the distance to its last tick by one, and the session finishes exactly when that distance is zero, that is after max_ticks ticks. |
| `Serializability.OneRecordPerFinishedSession` | server/src/result_repository.cpp:11-18 | A session has a record exactly if it got past saving, and the saving order contains every such record once. |
| `Serializability.RecordsAreRight` | server/src/session_manager.cpp:178-201 | Every stored record names the two participants in join order, as winner the one with the maximal final position, the smaller id on a tie, and as loser the other; its snapshot is the replay of the accepted inputs up to the last tick. |
| `Serializability.StepsAreFinalizeResult` | server/src/result_service.cpp:21-29 | The separately locked calls of the step system, run in a row, leave the ratings FinalizeResult leaves. |
| `Safety.EveryRunIsSafe` | server/src/session_manager.cpp:153-208 | The ten-part invariant (queue, index, both session tables, records, saving order, standings, pending inputs, every session) holds after every sequence of steps. |
| `Safety.SaveKeepsInv` | server/src/result_repository.cpp:11-18 | When a finishing session saves, its record is new and shares no player with any earlier record whose session is still alive; the invariant is kept. |
| `Safety.RateKeepsInv` | server/src/rating.cpp:28-51 | Applying a match late, after other sessions saved and applied theirs, keeps the standings the fold in saving order. |
| `Safety.EraseKeepsInv` | server/src/session_manager.cpp:203-207 | Erasing the users and the session keeps the tables inverse to each other and frees nobody whose rating is not yet applied. |
| `Safety.PushApart` | server/src/match_queue.cpp:19-30 | A join that passed its check may push later: in between no session can have claimed the user. |
| `Safety.PairTwoKeepsInv` | server/src/match_queue.cpp:73-85 | Turning the two earliest users into a session keeps the whole invariant. |
| `Uninterrupted.TickStepsAreOnTick` | server/src/match_queue.cpp:58-86 | From any state with the queue mutex free, the expire, pair and unlock steps in a row leave queue and index, user table, counter, new and earlier sessions as the method OnTick promises. |
| `Uninterrupted.EveryQueueTick` | server/src/match_queue.cpp:58-86 | The same for every reachable state, as a continuation of the run. |
| `Uninterrupted.LastStepsAreHandleTick` | server/src/session_manager.cpp:153-208 | The eight steps from the last timer tick to the final erase leave tables, records, ratings and sent messages as the method HandleTick promises. |
| `Uninterrupted.EveryLastTick` | server/src/session_manager.cpp:153-208 | The same for every last tick in every run, as a continuation of the run. |
| `Serial.LateIsAsGoodAsInTime` | server/src/rating.cpp:28-51 | A match may be applied after any number of matches that share no player with it: the standings are those of applying it in its place. |
| `Serial.FoldCountsRecords` | server/src/rating.cpp:47-48 | In the fold over records a user's wins and matches are the counts of records won and played. |
| `SessionRuns.DeliveredOk` | server/src/session_manager.cpp:89-115 | An input keeps a session in order, changes nothing that was sent before, and changes nothing at all once the session has ended. |
| `SessionRuns.TickedOk` | server/src/session_manager.cpp:153-171 | A timer tick keeps a session in order: its log of messages grows by exactly the state of the new tick, and by the end when it was the last. |
| `SessionRuns.StartedOk` | server/src/session_manager.cpp:120-133 | Starting a session sends exactly the created and started events that its transcript must begin with. |
| `SessionRuns.StartRowsAreZero` | server/src/session_manager.cpp:129-131 | The state in the started event has one row per participant, by ascending user id, all at position 0 and sequence 0. |
| `SessionRuns.PlayersAreParticipants` | server/src/simulation.cpp:66-70 | The players of a session's simulation are always exactly its two participants. |
| `SessionRuns.RecordNamesTheBetterPlayer` | server/src/session_manager.cpp:178-200 | The record a session leaves is of two different users, one of whom is the winner and beats the other; no sentinel value and no overflow interferes. |
| `Sessions.WinnerIsTheBest` | server/src/session_manager.cpp:179-188 | The running maximum over the ascending snapshot selects a player of maximal position, and the smallest id among those. |
| `SessionManagers.SessionManager.CreateSession` | server/src/session_manager.cpp:44-62 | One new context under the next number, one entry per participant in the user table, nothing else. |
| `SessionManagers.SessionManager.SubmitInput` | server/src/session_manager.cpp:69-118 | Answers by user table, ended flag, participant map and simulation, in that order, whatever session the input names, and changes at most that one simulation. |
| `SessionManagers.SessionManager.StartSession` | server/src/session_manager.cpp:120-133 | Each of the two participants is sent created, then started with the current snapshot, once each; nobody else is sent anything. |
| `SessionManagers.SessionManager.HandleTick` | server/src/session_manager.cpp:153-171 | The context, tables, records and ratings after a tick, and what each participant is sent, once each and in order: nothing for an ended session, the state of an ordinary tick, and the end after the state of the last one. |
| `SessionManagers.SessionManager.FinishSession` | server/src/session_manager.cpp:173-208 | Tells each participant the winner once, saves the record of the final state, applies it if it is new, and removes the session and its users; an ended session is left alone. |
| `SessionManagers.ToEachReaches` | server/src/session_manager.cpp:135-140 | A broadcast reaches each of some different participants exactly once, and nobody else. |
| `UserEvents.EmittedIsTheNews` | server/src/session_manager.cpp:120-192 | What a step of the pipeline broadcasts is what StartSession and HandleTick are proved to send to each participant. |
| `SessionManagers.SessionManager.PickWinner` | server/src/session_manager.cpp:179-188 | The loop over the rows finds the winner the specification defines. |
| `SessionManagers.AssignedTable` | server/src/session_manager.cpp:52-56 | After a session was created the user table leads its participants, and only them, to it. |
| `MatchQueueServices.MatchQueueService.Join` | server/src/match_queue.cpp:16-33 | Joins exactly if the user neither waits nor plays; then one node at the end of the queue with the given or the default timeout. |
| `MatchQueueServices.MatchQueueService.Cancel` | server/src/match_queue.cpp:35-46 | Succeeds exactly for a waiting user, and removes exactly that user's node. |
| `MatchQueueServices.MatchQueueService.OnTick` | server/src/match_queue.cpp:58-86 | Removes and informs exactly the users whose time is up, pairs the others as neighbours in join order into consecutively numbered sessions, leaves at most one waiting, and leaves all earlier sessions alone. |
| `MatchQueueServices.MatchQueueService.HandleTimeouts` | server/src/match_queue.cpp:88-101 | Erasing while iterating drops exactly the expired nodes, keeps the order of the others, and informs each user once, in order. |
| `MatchQueueServices.MatchQueueService.PairIfPossible` | server/src/match_queue.cpp:72-86 | The loop pairs neighbours until fewer than two remain. |
| `MatchQueue.CancelKeepsValid` | server/src/match_queue.cpp:35-46 | Cancelling by the stored iterator keeps index and queue in exact correspondence. |
| `MatchQueue.PopPairKeepsValid` | server/src/match_queue.cpp:74-81 | The two earliest users are different, and removing them keeps the correspondence. |
| `QueueHistory.RunIsConsistent` | server/src/match_queue.cpp:16-101 | In every run each successful join still waits or has exactly one fate (cancelled, timed out, paired); partners name each other; pairing follows the join order. |
| `QueueHistory.TimesOutExactly` | server/src/match_queue.cpp:28-98 | A timer tick times a waiting join out if and only if the expiry given with that join is not later than its reading. |
| `QueueHistory.FatesAreFinal` | server/src/match_queue.cpp:35-101 | No later event changes what became of a join. |
| `QueueHistory.PairingWaitsForTheTimer` | server/src/match_queue.cpp:28-32 | After a queue tick at most one user waits; after a successful join that is so if and only if nobody waited before; no event but a tick pairs anybody. |
| `QueueHistory.TwoUsersWait` | server/src/match_queue.cpp:28-32 | The input for which pairing is not immediate: two joins in a row leave two users waiting. |
| `QueueHistory.NobodyIsOvertaken` | server/src/match_queue.cpp:72-86 | When two users are paired everybody who joined before the second has left the queue, and whoever joined between them left unpaired. |
| `QueueProjection.SessionsAreThePairs` | server/src/match_queue.cpp:16-86 | In every interleaving of the whole pipeline the joins, departures and timer ticks form a history of the queue on its own, so that fates and order carry over, and the sessions ever created are exactly its pairs, numbered in the order of pairing (during a timer tick, the first of them). |
| `QueueProjection.EarlierJoinersPlayEarlier` | server/src/match_queue.cpp:72-86 | Both users of an earlier session joined the queue before both users of a later one. |
| `QueueProjection.StepProjects` | server/src/match_queue.cpp:16-101 | Every single step of the pipeline is the corresponding event of the queue on its own, or none. |
| `Results.ResultService.FinalizeResult` | server/src/result_service.cpp:16-30 | Saves and applies a record of an unknown session; for a known one nothing changes. |
| `Results.ResultService.FinalizeTwice` | server/src/result_service.cpp:17-19 | Finalizing a session a second time, with whatever record, changes nothing. |
| `Results.FinalizedIsOneMatch` | server/src/result_service.cpp:21-28 | The naming calls around a match are invisible: a finalization moves the standings as its one match does and keeps the sum of ratings. |
| `Results.FinalizedIsCalls` | server/src/result_service.cpp:21-28 | A finalization is exactly five calls: each participant named with the own name, both ensured, and the match; so names and figures follow from those of call sequences. |
| `Results.ResultRepository.SaveIfAbsent` | server/src/result_repository.cpp:11-18 | The first record of a session is kept, the answer says whether it was the first. |
| `Results.FirstSaveWins` | server/src/result_repository.cpp:11-18 | After any sequence of attempts to save, records exist exactly for the sessions tried, as many as sessions, and each is the first one tried. |
| `Results.ResultRepository.Find` | server/src/result_repository.cpp:30-37 | Finds the first record anybody tried to save for the session, and nothing exactly if nobody tried. |
| `Results.ResultRepository.Exists` | server/src/result_repository.cpp:20-23 | True exactly if somebody tried to save a record for the session. |
| `Results.ResultRepository.Count` | server/src/result_repository.cpp:25-28 | The number of different sessions anybody tried to save a record for. |
| `SimulationLog.RunRefinesLog` | server/src/simulation.cpp:14-92 | After any run of inputs and ticks the buckets, trackers, quotas and players are determined by the list of accepted inputs. |
| `SimulationLog.RunIsSortedReplay` | server/src/simulation.cpp:72-92 | After any run players are a fold over the accepted inputs that are due, sorted by (tick, sequence, user), and every remaining bucket lies strictly in the future. |
| `SimulationLog.LastSequenceAfterRun` | server/src/simulation.cpp:66-85 | After any run a player's last sequence is that of the due accepted input with the latest tick and, within that tick, the largest sequence; without one it is 0. |
| `SimulationLog.VerdictAfterRun` | server/src/simulation.cpp:33-64 | After any run each of the five refusals is given exactly if it applies and none before it does, and acceptance exactly if none does: the tick is past, the delta is outside of -3..3, the sequence is 0, some accepted input of the user has no smaller one, or four of the user's inputs were accepted for that tick. |
| `SimulationLog.TwelvePerTickIsReached` | server/src/simulation.cpp:49-61 | Four inputs of any admissible delta are accepted for every tick, so the bound of 12 per tick is reached in either direction, for every number of ticks. |
| `SimulationLog.ScheduleIsTheSortedLog` | server/src/simulation.cpp:79-89 | Applying bucket after bucket, each sorted on its own, is applying the one list of due accepted inputs sorted once: each input once, at its target tick. |
| `SimulationLog.EnqueueRefines` | server/src/simulation.cpp:14-25 | An accepted input is appended to the log, a rejected one changes nothing. |
| `SimulationLog.TickRefines` | server/src/simulation.cpp:72-92 | A tick applies exactly the inputs logged for it. |
| `SimulationLog.VerdictFromLog` | server/src/simulation.cpp:33-64 | The verdict on an input is a function of the clock and of that user's accepted inputs alone. |
| `SimulationLog.PositionBound` | server/src/simulation.cpp:66-70 | Every player is at most 12 per tick away from the origin. |
| `SimulationLog.QuotaCountsPending` | server/src/simulation.cpp:20-23 | For future ticks the quota counter is the number of the user's inputs waiting in that bucket, at most 4. |
| `Confluence.InterleavingIsUnobservable` | server/src/simulation.cpp:14-92 | Two sessions whose rounds interleave the same per-user streams differently show the same snapshot after every tick and give every input the same verdict. |
| `Confluence.VerdictsPerUser` | server/src/simulation.cpp:33-64 | Each user receives the verdicts the user's own inputs would receive if nobody else played. |
| `Confluence.SameStreamsSameSchedule` | server/src/simulation.cpp:80-85 | Logs with the same per-user streams take effect in the same order, as no two inputs of a tick share sequence and user. |
| `Simulations.Simulation.ValidateInput` | server/src/simulation.cpp:33-64 | The five refusals in the order of the source. |
| `Simulations.Simulation.EnqueueInput` | server/src/simulation.cpp:14-25 | Verdict and new tables of the specification that the log refines. |
| `Simulations.Simulation.TickOnce` | server/src/simulation.cpp:72-92 | Clock, buckets and players after a tick, with or without a bucket. |
| `Simulations.Simulation.Snapshot` | server/src/simulation.cpp:104-119 | One row per player by ascending user id, whatever order the hash map yields. |
| `Simulations.SnapshotShowsPlayers` | server/src/simulation.cpp:104-119 | A snapshot has one row for each player, by ascending user id, with that player's position and last sequence. |
| `Elo.GainThreshold` | server/src/rating.cpp:91-100 | The gain is at most 32 and is the largest k whose half point k - 1/2 the exact gain exceeds. |
| `Elo.NoTie` | server/src/rating.cpp:98 | No integer rating difference puts the exact gain on a rounding tie. |
| `Elo.GainNeverRises` | server/src/rating.cpp:91-100 | A larger lead never wins more points. |
| `Elo.GainSymmetry` | server/src/rating.cpp:42-46 | What either side of a pairing would win adds up to 32; between equals it is 16 each. |
| `Elo.NoGainExactlyFrom720` | server/src/rating.cpp:91-100 | The winner gains nothing exactly from a lead of 720 points on, and all 32 exactly from a deficit of 720 on. |
| `Elo.LeadBound` | server/src/rating.cpp:45-46 | A win never pushes the winner's lead over that loser beyond 721, unless it was larger before. |
| `EloFormula.FormulaMovesTheGain` | server/src/rating.cpp:91-100 | Over the reals, both rounded formulas move exactly the integer gain from loser to winner, for every pair of ratings. |
| `EloFormula.ExactGainIsNear` | server/src/rating.cpp:96-98 | The unrounded gain lies strictly within one half of the integer gain. |
| `EloFormula.TenToTheIsUnique` | server/src/rating.cpp:92-93 | The power of ten in the expected score is determined by its defining equation. |
| `EloFormula.TenToTheMultiples` | server/src/rating.cpp:92-93 | At differences that are multiples of 400 the defining equation is met by the plain power of ten. |
| `EloFormula.TenInWeights` | server/src/rating.cpp:92-93 | The weights the integer gain compares are, over a common denominator, exactly the power of ten whose 400-th power is 10^y, for every integer y. |
| `Ratings.MatchMovesTheGain` | server/src/rating.cpp:28-51 | A match between two users moves the gain from loser to winner, counts one win and one loss, and touches nobody else, whether or not entries existed. |
| `Ratings.MatchConserves` | server/src/rating.cpp:39-48 | A match keeps the sum of ratings at 1000 per entry, even if winner and loser are the same user. |
| `Ratings.MatchTallies` | server/src/rating.cpp:47-48 | A match adds one to the total of wins and to the total of losses. |
| `Ratings.NamingConserves` | server/src/rating.cpp:16-26 | Registering or renaming a user keeps the sum of ratings at 1000 per entry. |
| `Ratings.NamesAfterCalls` | server/src/rating.cpp:16-37 | After any namings and matches exactly the users mentioned have entries, each under the last non-empty name it was given. |
| `Ratings.StartingFigures` | server/src/rating.cpp:20-33 | Who has not played yet holds a rating of 1000, no wins and no losses, after any calls. |
| `Ratings.DisjointMatchesCommute` | server/src/rating.cpp:28-51 | Matches without a common player may be applied in either order. |
| `Ratings.LeadAfterMatch` | server/src/rating.cpp:42-46 | After any match the winner leads that loser by no less than before and by at most max(before, 721). |
| `RatingServices.RatingService.EnsureUser` | server/src/rating.cpp:16-26 | A new user starts at 1000; a known one keeps rating and counts and takes a non-empty name. |
| `RatingServices.RatingService.ApplyMatchResult` | server/src/rating.cpp:28-51 | The entries after both expected scores were taken before either rating was written, and the winner's summary. |
| `RatingServices.RatingService.GetLeaderboard` | server/src/rating.cpp:62-89 | The page cut with 64-bit arithmetic out of the unique ranking, independent of the order in which the hash map is copied. |
| `RatingServices.RatingService.GetSummary` | server/src/rating.cpp:53-60 | The summary is the user's row in the leaderboard; there is none exactly for users who are not listed. |
| `Leaderboard.SortedCopyIsTheRanking` | server/src/rating.cpp:66-75 | Any copying order leads to the same ranking. |
| `Leaderboard.RowsFall` | server/src/rating.cpp:70-75 | The rows of the leaderboard fall in rating, and rise in user id among equal ratings. |
| `Leaderboard.PagesPartitionTheRanking` | server/src/rating.cpp:77-88 | The pages 1 to ceil(total / size) one after the other list every user exactly once, in rank order. |
| `Leaderboard.RankCountsUsersAhead` | server/src/rating.cpp:70-75 | Exactly i users have a higher rating than the user at index i, or an equal rating and a smaller id. |
| `Leaderboard.SentRanks` | server/src/http_session.cpp:380-382 | On every page the server shows, wrapped ones included, the rank computed in 64 bits is one more than the number of users strictly ahead; after the cast to a 32-bit int it still is if and only if that number fits. |
| `Leaderboard.PageRanks` | server/src/http_session.cpp:382 | On a page in unbounded arithmetic, of whatever size, the rank is one more than the number of users strictly ahead. |
| `Leaderboard.SummariesAreRows` | server/src/rating.cpp:53-89 | A user with an entry is listed exactly once, with the name, rating, wins and losses of the entry and of the user's own summary; nobody else is listed. |
| `Leaderboard.WordPageIsIdealExactly` | server/src/rating.cpp:78-79 | The 64-bit page is the page of the contract if and only if the offset fits a word or its wrapped value lies behind the last entry. |
| `Leaderboard.HugePageWrapsToTheFirst` | server/src/rating.cpp:78-87 | Page 2^63 + 1 of size 2 shows the first two users instead of nobody. |
| `OutboundQueue.RunIsSafe` | server/src/websocket_session.cpp:199-252 | In every history: the byte count is the sum of the queued sizes, both limits hold, at most one write is outstanding, and the socket has received a prefix of the accepted messages in order; while the connection is open that prefix is exactly one message ahead of the completed writes, and the flag says whether one is under way. |
| `OutboundQueue.SendOutcome` | server/src/websocket_session.cpp:199-213 | A message is taken exactly if the unwritten accepted messages leave room for it under both limits; otherwise the connection closes and the queue is dropped. |
| `OutboundQueue.WriteOutcome` | server/src/websocket_session.cpp:226-239 | A completed write hands out the next accepted message if there is one and leaves the connection open; a failed one closes it. |
| `OutboundQueue.NothingAfterClosing` | server/src/websocket_session.cpp:215-252 | After closing nothing is accepted and nothing handed to the socket, whatever happens. |
| `OutboundQueue.WebSocketSession.EnqueueMessage` | server/src/websocket_session.cpp:199-213 | New queue state and what is handed to the socket. |
| `OutboundQueue.WebSocketSession.OnWriteDone` | server/src/websocket_session.cpp:226-239 | New queue state after a completed or failed write, and the next write started. |
| `RateLimiters.IntervalBound` | server/src/auth.cpp:63-79 | Within any interval of length L a key gets at most maxAttempts * (ceil(L / window) + 1) attempts, however fine the clock is. |
| `RateLimiters.IntervalMost` | server/src/auth.cpp:63-79 | In units of the clock, no history lets more than MostIn attempts on a key pass within an interval: for n attempts per window and a length of q spacings (window + 1) plus a rest, n(q + 1) without rest and n(q + 2) - 1 with one. |
| `RateLimiters.MostIsReached` | server/src/auth.cpp:63-79 | For every policy, key and length some history with a rising clock lets exactly that many pass. |
| `RateLimiters.MostInOneWindow` | server/src/auth.cpp:63-79 | For an interval of one window length this maximum is twice the limit less one. |
| `RateLimiters.PlainLimitHoldsExactly` | server/src/auth.cpp:70-78 | No interval of one window length lets more than maxAttempts through, in any history with a rising clock, if and only if the window is empty or the limit is at most one attempt. |
| `RateLimiters.KeysAreIndependent` | server/src/auth.cpp:65 | The bucket of a key is what the attempts on that key alone make it. |
| `RateLimiters.OtherKeysDoNotMatter` | server/src/auth.cpp:65-79 | Histories that agree on a key give its next attempt the same answer. |
| `RateLimiters.RateLimiter.Allow` | server/src/auth.cpp:63-79 | Answer and new buckets of one attempt. |
| `RateLimiters.AllowedExactly` | server/src/auth.cpp:63-79 | An attempt is allowed if and only if, counting it, at most maxAttempts attempts on its key were made since its window opened, where windows open at the first attempt and at every attempt more than a window later. |
| `RateLimiters.RefusedLeavesNoTrace` | server/src/auth.cpp:74-76 | Deleting a refused attempt from a history leaves the answer of every later attempt, on any key, as it was. |
| `TokenStore.CheckSucceedsExactly` | server/src/auth.cpp:142-154 | A check succeeds exactly for a token whose latest issue has not expired and was not followed by a logout. |
| `TokenStore.CheckReturnsTheIssue` | server/src/auth.cpp:132-153 | A successful check returns the user and the expiry of the latest login that issued the token. |
| `TokenStore.CheckIgnoresPurging` | server/src/auth.cpp:183-191 | A check answers as if nothing had ever been purged. |
| `TokenStore.LogoutAnswersExactly` | server/src/auth.cpp:137-140 | A logout finds the token exactly if nothing took it out since its issue: a logout, a check after expiry, or anybody's login after expiry. |
| `TokenStore.LogoutAgreesExactly` | server/src/auth.cpp:128-140 | A logout answers as on the table that never purges if and only if, since the token was last issued, no login of anybody and no check of it came after its expiry. |
| `TokenStore.LogoutRevealsCleanup` | server/src/auth.cpp:128-139 | The input for which it does not: two histories that differ only in another user's login answer the same logout differently. |
| `TokenStore.AuthService.Login` | server/src/auth.cpp:106-135 | The order of refusals, the attempt counted in every case, and the tokens after a success. |
| `TokenStore.AuthService.ValidateToken` | server/src/auth.cpp:142-154 | The answer, and the erasure of the token when it has expired. |
| `TokenStore.AuthService.CleanupExpired` | server/src/auth.cpp:183-191 | Erasing while iterating, in whatever order, removes exactly the expired tokens. |

## Left out

- HTTP routing, request parsing, JSON envelopes, timestamps, texts of errors, logging and metrics: messages are modelled by kind and content only.
- Boost.Asio itself: strands and timers are choices of the next step; that a posted handler eventually runs is not modelled, so there are no liveness claims beyond the termination measure of a session.
- Sessions and queue operations are interleaved on values in `Protocol`, not on the class instances; aliasing between threads and data races inside one handler are outside the step model.
- `Deliver` may reach a session before its start or after its end, which allows more orders than a strand does.
- `EnsureTimer` and the flag `timer_active_`: a queue tick is possible at any time.
- The start of a session, dispatched to its strand by `CreateSession`, is a separate step and a separate method call.
- The numbers of sessions stand for the strings "session-<number>"; wrap-around of the session counter is not modelled.
- List iterators stored in the queue index are modelled as ticket numbers of the nodes, and erasing through one as removing the node with that ticket.
- Positions are unbounded integers. The theorems about runs assume 12 * max_ticks <= 2^31 - 1, under which `SimulationLog.PositionBound` excludes an overflow; the server runs sessions of 5 ticks (server/src/app.cpp:113-114). Beyond that bound the source itself overflows a signed int.
- Ratings, wins and losses are unbounded integers, and clock readings, timeouts and byte counts do not overflow.
- EloFormula.FormulaMovesTheGain: assumes the exact power of ten, a real t with t^400 = 10^y, instead of the floating-point pow; that such a t exists for every y is not proved here, only that it is unique and what it is at multiples of 400.
- RatingServices.RatingService.GetLeaderboard: requires page and size in the ranges the request handler enforces, and fewer than 2^64 - 50 entries.
- The sorts are the insertion sort of `Sorting` on values; what is proved of them is that the result is the only sorted one, so any correct sort gives the same.
- Password hashing, salts, registration of accounts and random token generation: whether the password matched and which token was drawn are parameters of `Login`. The theorems need no freshness of tokens, since issuing a token again replaces it.
- Clock readings of the rate limiter and of the token table are assumed to rise in the order of access to the table. The source reads the clock before it takes the lock (server/src/auth.cpp:109, server/src/auth.cpp:143), so two threads can swap their readings.
- `RealtimeCoordinator` and `ReconnectService`: what is sent is appended to a ghost log; whether a user is connected is not modelled.
- The buffers of a running write, the closing handshake of a connection, and the blocking wait for the answer of a submission.
- `RunForDuration`, which only sleeps and ticks.
- `QueueLength` and `ActiveSessionCount`, which only read a size.
