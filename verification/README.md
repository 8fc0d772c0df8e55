# A verified model of the peer-to-peer pursuit game

Two processes that do not trust each other play a pursuit game with no referee. They must agree on every
turn, every result and the final score. This project models the protocol code of the Thief peer in Dafny and
proves what an honest pair of peers can rely on, what a passing audit means, and what each supporting
component (rate limiter, gatekeeper, transport, scent and belief grids, evasion decision) guarantees.

`dafny verify dfyconfig.toml` checks everything.

## How the project is laid out

- **The std_v1 match.** `Turns` (roles, payloads, messages, disclosure), `TurnLoop` (the two turn loops as
  steps, two mailboxes, a timeout possible at every wait, a send that is acknowledged, lost, or fails after it
  arrived), `SubGameProof` (the invariant over every interleaving), `SubGameTheorems`. `PlayLoops` holds the
  loops as imperative methods over a board, own state and scent field; each is shown to take exactly the
  steps of `TurnLoop`, and `PlayTogether` shows that the two against each other are one of its runs.
- **The series.** `Series` (two whole `play_series` peers as a transition system: reset, negotiate, play, audit,
  settle), `SeriesTurns` (isolation of sub-games), `SeriesAgreement` (audits and consensus), `SeriesTheorems`,
  `SeriesProgress` (every series ends, and can end agreed), `SeriesLimits` (where isolation ends), `SeriesLoop`
  (the driver's loop), `SeriesSide` (the driver as one peer of the transition system), `Scoring` (rows, consensus
  object, totals), `Resend` (the resend loops and the greeting), `Exchange` (the mailbox with its key coercion).
- **Commitments.** `Json` (canonical text, unique reading), `JsonReader` (a reader and the round trip), `Crypto`
  (preimage, binding, payload encoding), `ScentJson` (scent snapshots as the dictionaries that are hashed), `Audit`
  (the generic record audit), `CopTrace` and `CopAdapter` (replay audit of a Cop peer and the handlers that feed it).
- **The native match.** `Native`: turn state machine, round mailbox, one round, the match loop, two peers in
  lockstep.
- **Services.** `Transport`, `RateLimiter`, `Gatekeeper`.
- **Grids and strategy.** `Geometry`, `Scent`, `Grids`, `Belief`, `Brain`; exact reals throughout.
- `Options`, `Reals` and `Text` are shared helpers.

Two modelling conventions recur. The outside world (clock, peer, network, oracle strategy) is a parameter,
usually a function from an index to what happens there, so a theorem holds for every behaviour of it. Where the
source mutates an object the model has a class; its methods equate the new state with a specification function of
the old one, and the theorems are about those functions, among them laws that say in terms of the game, the board or
the text alone what they come to.

## Where the code gives less than the protocol text suggests

- The Police does not read the Thief's opening for a survival claim (police_round_loop.py:77-83), so with
  `max_steps` below 2 two honest peers can never return the same result. `AgreementNeedsTwoSteps` proves the bound
  exactly.
- Resetting the turn mailbox does not isolate sub-games by itself; the audit exchange is the barrier that does. As
  long as no audit wait expires no turn reaches another sub-game, whatever becomes of the turn waits
  (`AuditsIsolate`). Once a peer gives up on the audit, a late reply can land in the next sub-game if a turn wait
  expired as well (`ExpiredWaitsLeak`) or a sub-game is a single step (`SingleStepLeaks`), and only then.
  `IsolationExactly` states this for every choice of faults allowed; over all runs, isolation holds only of terms
  without a step or without a second sub-game.
- After a Thief timeout the Thief calls an honest Police a tamperer when the awaited reply was sealed after all
  (`HonestAuditsAreClean`, `AuditCleanExactlyWhenAllConsumed`).
- The Cop audit keeps one capture claim per step, the last one, so a passing audit vouches for all claims if and
  only if the claims for each step name one cell (`PassingVouchesExactly`, `AllTrueExactly`). Otherwise a false claim
  goes unnoticed, as it does on the trace of any honest Cop (`FalseClaimHides`).
- With one retry allowed, a transient failure is logged as retried although no further invocation follows
  (`CallWithRetry` states exactly when invocations and logged retries correspond).

## Model

| member | source | states |
|---|---|---|
| SubGameProof.RunKeepsInv | src/thief_peer/interop/std_v1/round_loop.py:94-189 | every interleaving of the two loops, with timeouts and failed sends anywhere, keeps: sealed steps without gaps, mailboxes holding exactly what was sealed, commits held for exactly the turns read, and only the Thief's last message ending the game |
| SubGameTheorems.ResultsNeverContradict | src/thief_peer/interop/std_v1/police_round_loop.py:77-128 | two finished sides return the same result; a timed-out Thief leaves the Police only a timeout; a finished Police means the Thief finished alike or failed to send |
| SubGameTheorems.NeverStuck | src/thief_peer/interop/std_v1/exchange.py:112-126 | for max_steps of at least 2 and nobody having given up, both returned the same result or one can go on without a timeout |
| SubGameTheorems.WorkIsBounded | src/thief_peer/interop/std_v1/round_loop.py:102-187 | every effective step is one unit of at most four per round, so fault-free play ends |
| SubGameTheorems.AgreementNeedsTwoSteps | src/thief_peer/interop/std_v1/police_round_loop.py:77-83 | some run ends with one common result if and only if max_steps is at least 2 |
| SubGameTheorems.AuditCleanExactlyWhenAllConsumed | src/thief_peer/interop/std_v1/audit.py:71-135 | at every point, auditing what the other has sealed is clean if and only if all of it has been consumed |
| SubGameTheorems.HonestAuditsAreClean | src/thief_peer/interop/std_v1/audit.py:119-135 | after a finished sub-game both audits are clean and each side holds exactly the other's commits; after a Thief timeout the verdict turns on whether the awaited reply was sealed |
| SubGameTheorems.HeardIsDisclosed | src/thief_peer/interop/std_v1/sealing.py:75-95 | over every run, each live message agrees in every public field with the turn its sender discloses for that step and commits to all of it |
| Turns.AuditCleanExactly | src/thief_peer/interop/std_v1/sealing.py:83-112 | an honest disclosure passes if and only if a matching commit is held for every turn in it; the step-0 declaration never counts |
| Turns.RolesStayComplementary | src/thief_peer/interop/std_v1/roles.py:13-18 | the first sub-game is played in the natural role, roles alternate from then on, and complementary natural roles stay complementary |
| PlayLoops.PlaySubGame | src/thief_peer/interop/std_v1/round_loop.py:94-189 | over real state, scent and mailbox the Thief loop takes exactly the protocol steps its setting prescribes, to the end; it returns capture only if the last reply read claimed its cell, walled it over or left it no open neighbour, survival or timeout only if none did, and every claim was answered truthfully |
| PlayLoops.PlaySubGameAsPolice | src/thief_peer/interop/std_v1/police_round_loop.py:73-128 | the Police loop takes exactly the prescribed protocol steps to the end, and seals for each step its move and a claim to the cell it stands on |
| PlayLoops.DrivenIsUnique | src/thief_peer/interop/std_v1/round_loop.py:94-189 | the prescribed steps form one run: result, disclosed turns and messages sent are a function of the strategy, the start and the outside |
| PlayLoops.JudgeReply | src/thief_peer/interop/std_v1/round_loop.py:142-165 | a declared barrier is learned before judging; the answer to the claim is truthful, and a capture without a claim is still confessed |
| PlayLoops.PositionByMoves | src/thief_peer/constants.py:23-28 | the cell after k moves is the start, plus one row for each move south less north and one column for each move east less west |
| PlayLoops.KnownExactly | src/thief_peer/interop/std_v1/round_loop.py:139-141 | the Thief knows the barriers it started with and those declared in the replies it read, and no others |
| PlayLoops.ClaimsFollowDisclosedMoves | src/thief_peer/interop/std_v1/police_round_loop.py:90-103 | every capture claim an honest Police discloses is the cell its own disclosed moves lead to |
| PlayLoops.FieldIsTrail | src/thief_peer/interop/std_v1/round_loop.py:111-121 | the scent a turn discloses is the trail of all moves made before it |
| PlayTogether.TwoLoopsAreOneRun | src/thief_peer/interop/std_v1/exchange.py:112-126 | a Thief loop and a Police loop that hear only what the other sent are one run of the sub-game: some interleaving ends where they end, with the mailboxes they filled |
| PlayTogether.ReturnsAgree | src/thief_peer/interop/std_v1/police_round_loop.py:73-128 | what two such loops return never contradicts, and after a common finish audits clean both ways |
| PlayTogether.CaptureExactly | src/thief_peer/interop/std_v1/capture.py:31-62 | absent timeouts and failed sends both loops return capture if and only if, at some turn before the last, the Police has moved onto the Thief's cell or the Thief is boxed in; the first such turn ends the game, and otherwise both return survival |
| SeriesTurns.RunKeepsTurnInv | src/thief_peer/interop/std_v1/series_runner.py:348-396 | without a turn fault, every run of two series peers keeps epochs at most one apart, offers only from started sub-games, and a peer left behind with nothing more to receive |
| SeriesTheorems.TurnsStayInTheirSubGame | src/thief_peer/interop/std_v1/exchange.py:119-126 | every turn in a mailbox was sent in the sub-game its owner is in, so nothing foreign is consumed and a reset drops no turn of the sub-game it starts |
| SeriesLimits.AuditsIsolate | src/thief_peer/interop/std_v1/series_runner.py:397-446 | as long as no audit wait expired, no turn is in a mailbox of another sub-game, with any number of expired turn waits and failed sends and for every max_steps |
| SeriesLimits.OneKindOfFaultIsolates | src/thief_peer/interop/std_v1/series_runner.py:348-450 | a run is isolated if no audit wait expired, or no turn wait did and max_steps is not 1 |
| SeriesLimits.ExpiredWaitsLeak | src/thief_peer/interop/std_v1/series_runner.py:348-349 | a run in which an expired turn wait and an expired audit wait put a turn of sub-game 1 into the mailbox of sub-game 2, for every max_steps from 2 on |
| SeriesLimits.SingleStepLeaks | src/thief_peer/interop/std_v1/series_runner.py:348-349 | with a single step an expired audit wait alone does so |
| SeriesLimits.IsolationExactly | src/thief_peer/interop/std_v1/series_runner.py:348-357 | for each choice of the kinds of fault allowed, all runs within it are isolated if and only if audit waits may not expire, or turn waits may not and max_steps is not 1, or there are no steps or no second sub-game |
| SeriesAgreement.StepKeepsAuditInv | src/thief_peer/interop/std_v1/series_runner.py:397-450 | a fault-free step keeps: reports clean and confirmed, both sides filing the same ends, stored envelopes that fit the mailbox they will be audited against |
| SeriesTheorems.SeriesAgree | src/thief_peer/interop/std_v1/series_runner.py:437-495 | in every fault-free run all audits are clean, results agree, consensus objects are equal and whoever settles confirms |
| SeriesTheorems.CanActMeansProgress | src/thief_peer/interop/std_v1/series_runner.py:348-396 | a peer not waiting for something absent has a step that changes it and gives nothing up |
| SeriesTheorems.SeriesNeverStuck | src/thief_peer/interop/std_v1/series_runner.py:348-495 | a fault-free series in which nobody gave up negotiating has settled in agreement on both sides or one side can act |
| SeriesProgress.SeriesEnds | src/thief_peer/interop/std_v1/series_runner.py:348-495 | however steps interleave and whatever fails, the steps of a series that change anything are bounded in games and max_steps |
| SeriesProgress.CanSettle | src/thief_peer/interop/std_v1/series_runner.py:348-495 | every fault-free series in which nobody gave up negotiating can be continued without a fault to its end, settled in agreement on both sides |
| SeriesSide.DriverTakesPeerSteps | src/thief_peer/interop/std_v1/series_runner.py:348-495 | for loops played to their end and honest audits, there are steps of one peer of the series that file the driver's reports and settle with the driver's verdict |
| SeriesSide.PeerIsItsSide | src/thief_peer/interop/std_v1/series_runner.py:348-495 | each peer of every run, faults included, is the result of its own acts and of what its mailboxes were given |
| SeriesSide.SettledSideAgreed | src/thief_peer/interop/std_v1/series_runner.py:437-495 | two sides whose steps interleave to a fault-free series file only clean, confirmed reports, and one that ended confirms the agreement |
| SeriesLoop.PlaySeries | src/thief_peer/interop/std_v1/series_runner.py:348-495 | each row gives, for how its sub-game ended and whether the peer disclosed anything it had not committed to, the fixed points, the winning group and the roles; the series is agreed if and only if every audit arrived, was not falsified and confirms the end, and the digests are equal |
| SeriesLoop.TotalsInClosedForm | src/thief_peer/interop/std_v1/series_runner.py:64-110 | each raw total is twenty for every capture made, five for every one suffered, ten for every survival and five for every one allowed, counted over the ends of the untampered sub-games |
| SeriesLoop.WinsInClosedForm | src/thief_peer/interop/std_v1/series_runner.py:102-110 | a group wins the sub-games it captured in as Police and survived as Thief |
| SeriesLoop.HonestReport | src/thief_peer/interop/std_v1/series_runner.py:415-446 | the driver files for an honest disclosure what the series model files |
| SeriesLoop.DriversBuildOneConsensus | src/thief_peer/interop/std_v1/audit.py:155-161 | two drivers with the same ends and no tampering, in complementary roles, build one consensus object |
| Scoring.RowIsSymmetric | src/thief_peer/interop/std_v1/series_runner.py:99-111 | both sides of a sub-game write the same row |
| Scoring.RowIsScored | src/thief_peer/interop/std_v1/series_runner.py:99-111 | a capture gives the Police's group twenty points, the Thief's five and the win to the former; a survival five and ten and the win to the latter; a timeout or forfeit nothing to either |
| Scoring.IdsAreOrderIndependent | src/thief_peer/interop/std_v1/crypto.py:44-58 | game id and game uid do not depend on which side derives them |
| Scoring.IdsSpelledOut | src/thief_peer/interop/std_v1/crypto.py:44-58 | the game id and the text behind the game uid, written out for two groups |
| Scoring.ConsensusIgnoresOrder | src/thief_peer/interop/std_v1/audit.py:155-161 | the consensus object does not depend on the order rows were collected in |
| Scoring.ComputeFinalResult | src/thief_peer/interop/std_v1/report.py:86-122 | the accumulation loop computes the settlement the theorems below are about |
| Scoring.SettleNamesTheLeader | src/thief_peer/interop/std_v1/report.py:97-107 | the winner is the group with the greater raw total, a tie adds two points to each, and only the winner of a first counted meeting is rewarded |
| Scoring.SettleIsSymmetric | src/thief_peer/interop/std_v1/report.py:97-107 | both sides settle to the same totals, winner, tie and reward |
| Scoring.SettleIsZeroSumInHonour | src/thief_peer/interop/std_v1/report.py:89-102 | no winner exactly on a tie of totals, wins and ties partition the rows, and only a tie adds points |
| Scoring.LeadInClosedForm | src/thief_peer/interop/std_v1/series_runner.py:64-70 | my raw total minus theirs is 15 per capture as Police less captures as Thief, plus 5 per survival as Thief less survivals as Police |
| Scoring.RepeatedResultTies | src/thief_peer/interop/std_v1/report.py:97-107 | an even alternating series with one repeated result is a tie without winner or reward |
| Audit.VerifyPeerRecords | src/thief_peer/interop/std_v1/audit.py:119-135 | the audit loop is clean if and only if every record matches the commit seen live for the step it names |
| Audit.TurnRecordsExactly | src/thief_peer/interop/std_v1/audit.py:71-91 | filtering drops exactly the declarations, never a turn record |
| Audit.CleanMeansAsSealed | src/thief_peer/interop/std_v1/sealing.py:115-134 | under a binding commitment a clean audit means every record is, payload and nonce, what was sealed live |
| Json.CanonicalUnambiguous | src/thief_peer/interop/std_v1/crypto.py:23-30 | a canonical text followed by a structural character determines the value up to key order, and where the text ends |
| Json.NormalForgetsOrder | src/thief_peer/interop/std_v1/crypto.py:23-30 | two dictionaries have one canonical form if and only if they hold the same keys with equal values |
| Json.EmitUnique | src/thief_peer/interop/std_v1/crypto.py:30 | no value's text is a proper prefix of another's and no two values share a text |
| JsonReader.CanonicalReadsBack | src/thief_peer/interop/std_v1/crypto.py:23-30 | a reader of JSON recovers from the canonical text exactly the value, with nothing left over; its keys are in ascending order and hold what they held |
| JsonReader.EscapesAreShort | src/thief_peer/interop/std_v1/crypto.py:30 | every character stands for itself but quote, backslash and control characters, which take the shortest escape JSON has |
| Text.LessEqExactly | src/thief_peer/interop/std_v1/crypto.py:30 | keys and groups are ordered by their first differing character, an extension after what it extends |
| Text.SortedPairOrders | src/thief_peer/interop/std_v1/crypto.py:44-58 | sorting two groups puts the smaller first |
| Crypto.PreimageUnambiguous | src/thief_peer/interop/std_v1/crypto.py:37-41 | two preimages are equal if and only if payloads (up to key order) and nonces are, whatever the nonces contain |
| Crypto.PreimageSpelledOut | src/thief_peer/interop/std_v1/crypto.py:37-41 | a preimage written out: the text without blanks, a pipe, the nonce |
| Crypto.CleanAuditMeansAsSealed | src/thief_peer/interop/std_v1/audit.py:125-135 | with an injective hash over the preimage, a clean audit means every disclosed record is the payload and nonce committed live for its step |
| Crypto.PayloadInjective | src/thief_peer/interop/std_v1/sealing.py:41-62 | the JSON of a payload determines every field, hidden move included, and no declaration reads as a turn, for every set of snapshots the encoding keeps apart |
| Crypto.TurnReads | src/thief_peer/interop/std_v1/sealing.py:41-62 | the hashed dictionary of a turn holds the nine fields under their names with the values sealed, and nothing else |
| Crypto.SealedCommitBinds | src/thief_peer/interop/std_v1/sealing.py:65-80 | on such snapshots, equal hashed commits if and only if equal sealed payload and nonce, which is how the protocol modules treat a commit |
| ScentJson.GridIsFaithful | src/thief_peer/domain/scent.py:64-65 | the dictionaries keyed by row and column keep apart all snapshots over numbers the runtime prints as different floats |
| ScentJson.KeySpelledOut | src/thief_peer/domain/scent.py:64-65 | the key of a cell, written out |
| ScentJson.DictionaryCommitBinds | src/thief_peer/interop/std_v1/sealing.py:65-73 | over such dictionaries the hex commit of a turn identifies payload and nonce, given only an injective hash and numbers printed apart |
| ScentJson.FaithfulGridExists | src/thief_peer/domain/scent.py:64-65 | a printing that keeps all hundredths apart, and so an encoding of infinitely many snapshots as required above |
| CopTrace.AuditCopPeerTrace | src/thief_peer/interop/cop_peer_audit.py:112-166 | the replay loop over ascending steps produces the specified report: failed steps, false or unmatched claims, steps checked |
| CopTrace.MoveExactly | src/thief_peer/interop/cop_peer_audit.py:17-17 | a step north lowers the row by one, south raises it, east and west likewise the column; a step off the grid, a barrier and any other direction leave the position |
| CopTrace.ReplayByMoves | src/thief_peer/interop/cop_peer_audit.py:100-109 | the replayed barriers are those placed; along moves that never lead off the grid the replayed position is the start plus the count of steps each way |
| CopTrace.WalkFollowsCountsExactly | src/thief_peer/interop/cop_peer_audit.py:100-109 | from a start inside the grid every prefix of the moves leads where counting them does if and only if counting never leads off the grid |
| CopTrace.PassesExactly | src/thief_peer/interop/cop_peer_audit.py:126-165 | passes if and only if there is an entry, every entry is complete and commits to the replayed state, every claimed step is audited and the last claim for it is true |
| CopTrace.BlamesExactly | src/thief_peer/interop/cop_peer_audit.py:134-160 | the failed steps are exactly those incomplete or not sealing the state replayed there, the failed claims exactly those false of it or naming a step no complete entry covers |
| CopTrace.PassingClaimsAreTrue | src/thief_peer/interop/cop_peer_audit.py:131-157 | with at most one claim per step, passing means every claim names an audited step and the replayed position |
| CopTrace.PassingVouchesExactly | src/thief_peer/interop/cop_peer_audit.py:131-157 | a passing audit means that every claim is true if and only if the claims for each step name one cell |
| CopTrace.AllTrueExactly | src/thief_peer/interop/cop_peer_audit.py:131-157 | on an authentic trace every claim is true if and only if the audit passes and the claims for each step name one cell |
| CopTrace.ShadowedClaimPasses | src/thief_peer/interop/cop_peer_audit.py:131-132 | of two claims for one step of an authentic trace, a true one after a false one hides it; in the other order the audit fails |
| CopTrace.SiteStaysInGrid | src/thief_peer/interop/cop_peer_audit.py:100-109 | from a start inside the grid the replayed position never leaves it, whatever moves are revealed |
| CopTrace.PassingDisclosureIsUnique | src/thief_peer/interop/cop_peer_audit.py:141-150 | under a binding seal two disclosures passing against the same commits are equal at every step |
| CopAdapter.RetriesAreInvisible | src/thief_peer/interop/cop_server_tools.py:46-98 | any stream, from any state, with each message repeated any number of times ends as without repeats |
| CopAdapter.CountersStayTogether | src/thief_peer/interop/cop_server_tools.py:60-97 | at every moment of an honest delivery the reveal counter is at most one behind the commit counter |
| CopAdapter.HonestCopPasses | src/thief_peer/interop/cop_server_tools.py:147-158 | an honest Cop of k rounds that seals the cell its steps take it to, retried or not, passes with verified_steps equal to k |
| CopAdapter.EachRoundForwardedOnce | src/thief_peer/interop/cop_server_tools.py:60-94 | however often messages are retried, the round mailbox gets each commit and each reveal of an honest Cop once, in order and under its round |
| CopAdapter.FalseClaimHides | src/thief_peer/interop/cop_peer_audit.py:131-132 | on the trace of any honest Cop, at any step and for any wrong cell, a false claim followed by the true one passes, and fails in the other order |
| CopAdapter.CopContextAdapter.HandleReceiveCommit | src/thief_peer/interop/cop_server_tools.py:46-65 | advances unless the commit echoes the one still awaiting its reveal |
| CopAdapter.CopContextAdapter.HandleReceiveReveal | src/thief_peer/interop/cop_server_tools.py:67-98 | advances unless the current step already has its reveal |
| CopAdapter.CopContextAdapter.HandleReceiveFinalReveal | src/thief_peer/interop/cop_server_tools.py:147-158 | stores nonces and intents, then files and returns the report of the completed trace |
| CopAdapter.CopPeerTrace.RecordFinalReveal | src/thief_peer/interop/cop_peer_audit.py:59-63 | every nonce and intent reaches its own entry, a later one for the same step winning |
| Native.TurnFsm.Transition | src/thief_peer/peer/turn_fsm.py:11-32 | only table edges are taken; an illegal target leaves the machine as it was |
| Native.LegalPathsExactly | src/thief_peer/peer/turn_fsm.py:11-19 | the paths the table allows are exactly round after round in order, cut short at most by a final technical loss after computing the move or awaiting the reveal |
| Native.MatchExplained | src/thief_peer/peer/runtime.py:208-270 | a match runs to its first eventful turn and ends the way that turn says, or to the last move |
| Native.WaitFor | src/thief_peer/peer/round_exchange.py:38-59 | the first poll that sees an interrupt or the message decides and an interrupt outranks the message; the deadline expires only if no poll saw either |
| Native.PlayRound | src/thief_peer/peer/round_loop.py:16-96 | entered in WAITING_FOR_OPPONENT it takes legal edges only, ends there exactly when it reports no loss, in TECHNICAL_LOSS exactly when it reports one, and in COMPUTING_MOVE exactly when the strategy failed |
| Native.PlayMatch | src/thief_peer/peer/runtime.py:204-270 | end, rounds and records are those the turns prescribe, reached by exactly the peer steps; the state machine stands in a losing state exactly when the match was lost |
| Native.Lockstep | src/thief_peer/peer/runtime.py:208-270 | over every interleaving round numbers differ by at most one, and a peer in round s+1 holds the other's own reveal of every round up to s together with its commit |
| Native.InterruptedRoundIsLast | src/thief_peer/peer/round_exchange.py:50-52 | a wait cut short by the wakeup belongs to the last round of the match |
| Native.NeverBothStuck | src/thief_peer/peer/round_loop.py:76-78 | of two waiting peers at least one already has what it waits for |
| Exchange.TextTakesTheNumbersSlot | src/thief_peer/interop/std_v1/exchange.py:31-44 | a number sent as a decimal string takes the slot of the number |
| Exchange.CoerceExactly | src/thief_peer/interop/std_v1/exchange.py:31-44 | a text becomes a number if and only if it spells one after at most one dash, and is refused if and only if it is several dashes before digits |
| Exchange.AuditsHoldTheLatest | src/thief_peer/interop/std_v1/exchange.py:130-160 | after every history each key holds its latest envelope and the consensus slot the latest consensus envelope; neither kind displaces the other |
| Exchange.SlotsHoldTheLatest | src/thief_peer/interop/std_v1/exchange.py:103-126 | after every history each sub-game key holds its latest offer and each step key the latest turn since the turns were last reset |
| Exchange.FirstNameDecides | src/thief_peer/interop/std_v1/exchange.py:47-66 | of the three places a record may name its sub-game in, the first that does decides |
| Exchange.ExactEntriesBelong | src/thief_peer/interop/std_v1/exchange.py:69-88 | everything filed under a sub-game belongs to it, so the exact slot is never passed over |
| Exchange.DeclaredEnvelopeIsFound | src/thief_peer/interop/std_v1/exchange.py:183-190 | a declared envelope is what the wait for its sub-game finds, unless a later one was filed for the same sub-game |
| Exchange.UnnumberedIsReturnedExactly | src/thief_peer/interop/std_v1/exchange.py:185-190 | an unnumbered envelope is returned if and only if nothing is filed for the sub-game and its records are empty or one of them names it |
| Exchange.WaitForAudit | src/thief_peer/interop/std_v1/exchange.py:162-192 | never returns a consensus envelope or one that declares or discloses only another sub-game |
| Exchange.WaitForEitherKey | src/thief_peer/interop/std_v1/exchange.py:253-262 | the first poll with an exact or an unnumbered message decides, the exact one preferred |
| Exchange.StdExchange.RecordAudit | src/thief_peer/interop/std_v1/exchange.py:130-160 | stores under the coerced key or in the consensus slot, and stores nothing when the key cannot be read |
| Resend.SendAndAwait | src/thief_peer/interop/std_v1/audit.py:40-68 | the first attempt that is acknowledged and sees the peer's message returns it, an attempt past its own deadline escapes, and without either before the ceiling the exchange is given up; the ceiling bounds the number of sends; sends, waits and end are deeds of one side of the exchange |
| Resend.WaitsToTheCeiling | src/thief_peer/interop/std_v1/audit.py:56-68 | a wait lasts the full interval while there is room for it, then what is left to the ceiling, then nothing |
| Resend.SideIsItsDeeds | src/thief_peer/interop/std_v1/audit.py:40-68 | each side of every exchange stands where the resend loop's own deeds lead |
| Resend.ReturnedMeansDelivered | src/thief_peer/interop/std_v1/audit.py:40-68 | a resend loop that returned has the other side's own message, and its own lies in the other's slot, whatever became of the other |
| Resend.FinishedMeansFindable | src/thief_peer/interop/std_v1/handshake.py:106-133 | a side that finished has the other's unchanged message and its own is in the other's slot, so the other's next look finishes |
| Resend.OtherCanFinish | src/thief_peer/interop/std_v1/handshake.py:106-133 | whatever happened before, one acknowledged send and one look finish the other side unless it already stopped |
| Resend.AcceptanceIsMutual | src/thief_peer/interop/std_v1/handshake.py:51-78 | each of two honest groups accepts the other's greeting if and only if both play under the same closed set of terms, in whatever key order |
| Resend.AcceptedExactly | src/thief_peer/interop/std_v1/handshake.py:51-78 | a greeting from anyone is accepted if and only if it is the one an honest group builds under the same closed terms with some nonce, under whatever group id |
| RateLimiter.WindowBound | src/thief_peer/shared/rate_limiter.py:23-34 | in any time window the admitted cost is at most the capacity and the refill during the window |
| RateLimiter.RefusedExactly | src/thief_peer/shared/rate_limiter.py:23-34 | the bound is tight: a call is refused if and only if admitting it would overdraw some window that ends with it |
| RateLimiter.IdleBucketAdmits | src/thief_peer/shared/rate_limiter.py:30-34 | a call within the capacity is admitted once its cost has flowed in since the last call, however drained the bucket was |
| RateLimiter.TokenBucket.Allow | src/thief_peer/shared/rate_limiter.py:23-34 | the lazily refilled bucket admits and charges as the specification the window bound is about |
| RateLimiter.LocksExactly | src/thief_peer/shared/rate_limiter.py:70-81 | the detector is locked if and only if some window ending at a recorded call was overloaded; until then its deque is the filter of the calls within the window |
| RateLimiter.LocksByCount | src/thief_peer/shared/rate_limiter.py:70-81 | locked if and only if some call and those no longer than the window before it were more than allowed |
| RateLimiter.NeverUnlocks | src/thief_peer/shared/rate_limiter.py:70-77 | once locked, nothing recorded later changes the detector |
| RateLimiter.DosDetector.RecordCall | src/thief_peer/shared/rate_limiter.py:70-81 | the pruning loop leaves the detector in the specified state |
| Gatekeeper.ApiGatekeeper.Execute | src/thief_peer/shared/gatekeeper.py:34-48 | the queue keeps its length, the log gains retries and exactly one terminal entry, a rejected call never reaches the API, and from two retries on there is one more invocation than logged retries |
| Gatekeeper.ApiGatekeeper.WaitForToken | src/thief_peer/shared/gatekeeper.py:50-62 | granted if and only if a whole token has flowed in by the last poll the caller gets; the queue is as it was or rotated by the own ticket |
| Gatekeeper.GrantedExactly | src/thief_peer/shared/gatekeeper.py:50-62 | a caller is never refused while a token was there at one of its tries and never granted on less |
| Gatekeeper.EnoughPollsGrant | src/thief_peer/shared/gatekeeper.py:56-61 | a queued caller is granted by the n-th poll once the polls so far span the time a token takes to flow in |
| Gatekeeper.ApiGatekeeper.CallWithRetry | src/thief_peer/shared/gatekeeper.py:64-84 | at most max_retries invocations, each retry logged as what it retried; the last one answered, exhausted the retries or was refused one; invocations are retries plus one unless the single attempt allowed fails transiently |
| Transport.Call | src/thief_peer/infra/mcp_client.py:90-127 | only the last attempt can have reached the peer, there are at most max_retries, none starts at or after the timeout, the call ends within twice the timeout, and in the way the attempts' failures and durations dictate |
| Transport.EndingIsUnique | src/thief_peer/infra/mcp_client.py:90-127 | number of attempts and ending of a call are fixed by what the outside does |
| Transport.RetriedExactly | src/thief_peer/infra/mcp_client.py:50-68 | a refused or timed-out connection, or a client that never connected, is always retried while an attempt and time are left; no other failure ever is |
| Transport.PausesGrow | src/thief_peer/infra/mcp_client.py:119-121 | with time to spare the attempt after k immediate failures starts 1 + 2 + ... + k backoffs after the call |
| Scent.ScentField.Advance | src/thief_peer/domain/scent.py:42-56 | decay, kernel deposit and cap as one step |
| Scent.ScaledKernelOk | src/thief_peer/domain/scent.py:36-39 | the scaled kernel is positive on exactly the 5x5 offsets and the cap at its centre |
| Scent.KernelAsPrinted | src/thief_peer/domain/scent.py:18-39 | all 25 kernel values are those printed, in proportion to the centre intensity |
| Scent.TrailSupport | src/thief_peer/domain/scent.py:42-56 | the support is exactly the union of the in-bounds 5x5 windows around the visited cells |
| Scent.TrailValues | src/thief_peer/domain/scent.py:53-56 | every value lies in (0, c] and the mover's cell holds exactly c |
| Scent.TrailRemembers | src/thief_peer/domain/scent.py:46-56 | a cell visited k advances ago holds at least what k decays leave of c |
| Scent.TrailIsSum | src/thief_peer/domain/scent.py:42-56 | until the cap is reached a cell holds the sum over all visits of the kernel value at its offset, faded once per advance since |
| Scent.SumLawExactly | src/thief_peer/domain/scent.py:42-56 | that sum law holds at every moment of a trail if and only if the sum never exceeds the cap |
| Scent.TrailAtMost | src/thief_peer/domain/scent.py:53-56 | a cell never holds more than that sum or the cap |
| Scent.TrailAtLeast | src/thief_peer/domain/scent.py:46-56 | a cell holds at least what is left of any one visit's share, capped when it was made |
| Scent.TrailIsShown | src/thief_peer/domain/scent.py:64-65 | a snapshot of a trail conceals nothing of it |
| Scent.FadedInClosedForm | src/thief_peer/domain/scent.py:46 | what k decays leave of x is x times (1 - rho) to the k |
| Belief.BeliefGrid.ObserveScent | src/thief_peer/domain/belief.py:27-35 | keeps a strictly positive distribution for non-negative intensities |
| Belief.BeliefGrid.ObserveDeclaration | src/thief_peer/domain/belief.py:37-62 | keeps a strictly positive distribution, degenerate declarations changing nothing |
| Belief.BeliefGrid.Diffuse | src/thief_peer/domain/belief.py:64-82 | keeps a strictly positive distribution |
| Belief.BeliefGrid.MostLikely | src/thief_peer/domain/belief.py:84-90 | an in-bounds cell of greatest belief, the first in row order |
| Belief.After | src/thief_peer/domain/belief.py:21-97 | any sequence of updates leaves a strictly positive grid that sums to 1 |
| Belief.SmellingCommutes | src/thief_peer/domain/belief.py:27-35 | two scent updates give the same belief in either order |
| Belief.ScentShiftsOdds | src/thief_peer/domain/belief.py:27-35 | a scent update changes the odds between two cells in the ratio of one plus their intensities |
| Belief.ScentAttractsBelief | src/thief_peer/domain/belief.py:33-34 | of two cells believed equally the one that smells more becomes the more likely |
| Belief.DeclarationExact | src/thief_peer/domain/belief.py:46-62 | a declaration that meets the board without covering it leaves exactly trust on the ball; any other leaves the belief alone |
| Belief.DeclarationKeepsOdds | src/thief_peer/domain/belief.py:52-62 | a declaration leaves the odds between two cells on the same side of it as they were |
| Belief.DiffuseExact | src/thief_peer/domain/belief.py:67-82 | before normalizing, diffusion conserves the mass and each cell receives its neighbours' equal shares, so every cell stays positive |
| Belief.DiffuseByParts | src/thief_peer/domain/belief.py:67-82 | each cell collects, from itself and the four cells around it, their belief over one plus the sides on which the board goes on |
| Brain.AdaptiveThiefBrain.PickMove | src/thief_peer/strategy/adaptive_thief_brain.py:94-123 | the move is the near-best candidate the draw selects, and safe from every pessimistic reply whenever some candidate is |
| Brain.SafeBeatsDanger | src/thief_peer/strategy/adaptive_thief_brain.py:104-114 | up to 99,498 turns a safe cell outscores an endangered one by more than the tie margin, whatever mobility and recency say |
| Brain.ScoreTrades | src/thief_peer/strategy/adaptive_thief_brain.py:104-114 | the score of one cell over another, from their distances to the nearest plausible reply, their open neighbours and when they were last visited |
| Brain.RepliesExactly | src/thief_peer/strategy/adaptive_thief_brain.py:61-71 | the plausible replies are the believed cell and every cell of the board next to it |
| Brain.ChosenIsSafe | src/thief_peer/strategy/adaptive_thief_brain.py:61-123 | if some legal move keeps two steps from all pessimistic replies then so does the choice; in particular whenever the believed Cop is three away |
| Brain.FarCopLeavesSafeMove | src/thief_peer/strategy/adaptive_thief_brain.py:61-71 | with the believed Cop at least three away, staying is safe |
| Brain.SoftmaxPick | src/thief_peer/strategy/adaptive_thief_brain.py:73-92 | picks the near-best candidate whose stretch of the weights the draw falls into, and finds none only if there are none |
| Brain.TiedInOrder | src/thief_peer/strategy/adaptive_thief_brain.py:76-84 | the near-ties are the candidates within a millionth of the best, in their order |
| Brain.Sample | src/thief_peer/strategy/adaptive_thief_brain.py:85-92 | the cumulative walk lands on the candidate whose interval holds the draw |
| Geometry.LegalMovesExact | src/thief_peer/domain/board.py:25-37 | exactly the open orthogonal steps and STAY, one to five of them |
| Geometry.LegalMoveIsShort | src/thief_peer/domain/board.py:39-42 | a legal move changes any distance by at most one and stays on the board |
| Geometry.OwnGameState.ApplyMove | src/thief_peer/domain/own_state.py:18-30 | an illegal move changes nothing; a legal one moves, marks the old cell visited and counts |
| Geometry.StuckExactly | src/thief_peer/domain/rules.py:28-30 | stuck if and only if all four neighbours are walls or barriers |
| Geometry.CaughtExactly | src/thief_peer/interop/std_v1/capture.py:31-62 | caught if and only if the cell is claimed, walled over, or has all four neighbours off the board or barred |
| Geometry.DistanceCountsSteps | src/thief_peer/domain/board.py:39-42 | distance is zero only on the cell itself, changes by one with every step, and some step always brings another cell nearer |
| Geometry.CaptureIsMonotone | src/thief_peer/interop/std_v1/capture.py:31-62 | learning more barriers never takes a capture back |

## Left out

- The MCP server and client, sockets, sessions and server registration: only whether a call is acknowledged, lost
  or fails after arriving is modelled.
- Clocks, threads, locks and polling: the scheduler is any interleaving, waits see a sequence of mailbox contents,
  and the consensus watchdog thread (series_runner.py:196-229) is not modelled.
- The last check for a consensus envelope after the ceiling (series_runner.py:155-157): it can return without an
  own send having succeeded, so it is outside the no-half-open result.
- A message of an abandoned call that arrives later than the moment its send failed: an ambiguous failure delivers
  at once or never.
- SHA-256, nonce generation and UUID formatting: the hash is any injective function, nonces are inputs, and a digest
  in the series model is represented by the object it is the digest of.
- Floating-point rounding and underflow: scent, belief, scores, tokens and times are exact reals; JSON floats are
  the text the runtime prints for them. `diffuse` skips cells of zero mass, which cannot occur in exact arithmetic.
- The text a float prints as: any printing that keeps the numbers used apart and looks like a float.
- SeriesSide.DriverTakesPeerSteps: the peer's audits are honest disclosures; what an altered disclosure makes the
  driver file is stated by `SeriesLoop.PlaySeries` and the `Audit` module.
- PlayTogether.ReturnsAgree: a wait may expire on a turn that was sent, but a turn is never altered on its way.
- Peer schema variants in the honest two-peer theorems: turn steps are integers there; text keys appear only in
  the mailbox model.
- The Police relay loop and the greedy Police strategy: the built-in Police loop is modelled with any legal-move
  strategy.
- Trash talk, language model providers, mail, OAuth, the command line, the GUI and the replay viewer: input and
  output or presentation.
- Report packaging, identity blocks, league counters and configuration loading: data assembly without a hard
  property.
- The rest of the Cop wire protocol (scent sharing, barrier quota, capture responses, step-0 declarations) and the
  native handshake.
- Exchange.Coerce: digits are the ASCII digits; other characters the runtime counts as digits, booleans used as
  numbers and the runtime's limit on the length of numerals are not modelled.
- CopTrace.Apply: a barrier move always carries its coordinates; a malformed move, which raises in the handler, is
  not modelled.
- Resend.AcceptanceIsMutual: terms are compared as JSON values, so a number equal to another of a different JSON
  type counts as different.
- Gatekeeper.ApiGatekeeper.WaitForToken: one caller at a time; other threads do not touch the queue or the bucket
  between polls.
- RateLimiter.WindowBound: capacity and refill rate are not negative, and the clock never runs backwards.
- RateLimiter.RefusedExactly: as above, and no call has a negative cost.
- Brain.SafeBeatsDanger: for the default weights.
- Native.Lockstep: capture confirmations are steps of the server thread that set the flag and then the wakeup; what
  makes a capture true on the other side is not modelled.
