# Moltgames verification

A Dafny model of the core of Moltgames, a platform on which two agents play matches, with proofs about it.
One module per file, each named after the component it models.

| files | component |
|---|---|
| `YamlParser`, `YamlGrammar`, `YamlRoundTrip` | the indentation parser for rule definitions, the grammar it decides, and a canonical printer it inverts |
| `StableJson`, `Rules` | canonical JSON text, semantic versions, the compatibility gate |
| `RuleRegistry`, `RegistryRuns` | the rule catalog, publishing, rolling back, and whole runs of both |
| `Engine`, `EngineRuns`, `EngineProtocol`, `EngineHypotheses` | one call of the engine, serial runs, interleavings of single Redis calls, and why these need hypotheses |
| `Pairing`, `MatchQueue`, `QueueRuns` | who may be paired, the greedy pass, the queue in Redis, and runs of it |
| `BluffDice`, `PromptArena`, `VectorGrid`, `DilemmaPoker` | the four games |
| `RateLimiter` | the sliding-window script and the log it stands for |
| `Rating`, `RatingService` | Elo, rankings, seasons, and runs of match results |
| `DeviceFlow`, `DeviceIndex` | the in-memory device authorization store and service, and its index of user codes |
| `Text`, `Wrappers` | string operations and option and result types |

Code that updates objects in place is a class whose methods are tied to a function on values
(`MatchQueue.MatchQueueService.Enqueue` to `EnqueueStep`, for example); the lemmas about runs are about that function.
Loops of the source are loops with invariants. Clocks, random draws, generated ids and rolled dice are parameters, so
every statement holds for all of them. `requires` clauses name the conditions under which the source keeps its promise.

Where the code does less than its surroundings suggest, the code is modelled and the gap is stated exactly:

- `parseYaml` ignores where its block ended. A document is read to its end if and only if no line in the first column
  is of the other kind (`YamlParser.WholeDocumentRead`, with the lost tail of `YamlRoundTrip.TailSilentlyDropped`).
- The branch of `parseArray` for a bare `-` never runs (`YamlParser.NoBareItems`).
- Redaction hides the secret in every content if and only if the placeholder has no replacement pattern for the match
  or the text around it, and what it inserts cannot rebuild the secret with a beginning and an end of the secret
  (`PromptArena.RedactionHidesIffSafe`, for every placeholder).
- Every accepted publish of a game supersedes its active rule if and only if the game has an audit entry
  (`RegistryRuns.GateHoldsIffAudited`); the first publish is not gated.
- A catalog key belongs to one rule only if and only if the rule's ids have no colon (`RuleRegistry.KeyIsUniqueIffPlain`).
- The serial order of interleaved calls needs sections that end within the lock's time to live, distinct request ids of
  overlapping calls, and no activation inside a section: without any one of them there is a run from a fresh match, meeting
  the other hypotheses, whose answers and data fit no serial order (`EngineHypotheses.TimelinessIsNeeded`,
  `EngineHypotheses.DistinctIdsAreNeeded`, `EngineHypotheses.ApartnessIsNeeded`).
- A request with a blank id is processed again when it is sent again (`EngineRuns.ResendIsIdempotent`).
- The mock judge of Vector Grid Wars agrees with the count of controlled cells on every playable board if and only if
  boards are at most ten by ten, or nothing can ever be placed (`VectorGrid.JudgeIsRightIffSmall`); on every larger board
  it can name the agent who controls fewer cells (`VectorGrid.JudgeNamesTheWrongAgent`).
- In every run of Dilemma Poker without consumed turns each commit comes from an agent who has not yet committed in that
  round, if and only if a round has at most two negotiation messages (`DilemmaPoker.CommitsAreFairIffFewMessages`). With
  more, one agent owns both action turns (`DilemmaPoker.ActionSlots`, `DilemmaPoker.ThreeMessagesMisalign`).
- An Elo update that falls on an exact half creates a point (`Rating.EloPointsConserved`), as every decided match between
  equal ratings does under an odd factor (`Rating.OddFactorCreatesPoint`).
- A device user code drawn again while an old session still carries it can be lost while the new session is live
  (`DeviceIndex.StaleSessionDropsIndex`, `DeviceIndex.UserCodeCanBeLost`). An activation reaches its session if and only
  if, besides the usual conditions, since the issue no other code with that user code was exchanged that had expired but
  was still stored (`DeviceIndex.ActivationReachesExactly`).

## Model

| member | source | states |
|---|---|---|
| YamlRoundTrip.DocumentRoundTrip | packages/rules/src/catalog.ts:70-200 | parsing the canonical two-space text of any supported document, at any depth and with scalars in every notation (integers, decimals, booleans, null, double and single quotes, bare text), gives what the document means |
| YamlGrammar.ParsesIffSpelled | packages/rules/src/catalog.ts:78-193 | any lines parse as a block with this end and this value if and only if they are the lines of a syntax tree of the grammar with this value, followed by a line that closes it or by nothing: every refusal is one of the grammar |
| YamlGrammar.DocumentParsesIffSpelled | packages/rules/src/catalog.ts:195-199 | a text parses to a value if and only if its significant lines begin with a block of that value in the first column, or are none |
| YamlGrammar.ReadBlock | packages/rules/src/catalog.ts:177-193 | a block of the grammar in any text, before any line that closes it, is read to its end and to its value |
| YamlGrammar.ReadEntries | packages/rules/src/catalog.ts:78-120 | the mapping loop puts exactly the entries of the grammar into the fields it was given |
| YamlGrammar.ReadItems | packages/rules/src/catalog.ts:122-175 | the list loop appends exactly the items of the grammar |
| YamlGrammar.ReadItem | packages/rules/src/catalog.ts:133-172 | an item of each of its four shapes is read whole |
| YamlGrammar.FindBlock | packages/rules/src/catalog.ts:177-193 | conversely, whatever parses is a block of the grammar with the value that the grammar gives it |
| YamlGrammar.SetFieldLaw | packages/rules/src/catalog.ts:101-115 | a repeated key takes the later value and keeps its place, other keys are untouched |
| YamlRoundTrip.ScalarRoundTrip | packages/rules/src/catalog.ts:29-63 | every notation of a scalar is read as what it means, bare text as itself |
| YamlRoundTrip.StandsForItself | packages/rules/src/catalog.ts:29-63 | a trimmed text is read as itself if and only if it is empty, or not quoted, none of the three words and not a number by its characters |
| YamlRoundTrip.NumbersAreNumberLike | packages/rules/src/catalog.ts:54-60 | the two number patterns accept exactly digits with an optional sign and an optional dot |
| YamlRoundTrip.EntryRoundTrip | packages/rules/src/catalog.ts:98-107 | an entry is split at its colon, with any number of spaces on both sides of it |
| YamlRoundTrip.TreeFits | packages/rules/src/catalog.ts:70-193 | the tree of a printable document is one of the grammar and means what the document means |
| YamlRoundTrip.FillersAreIgnored | packages/rules/src/catalog.ts:71-74 | blank lines and whole-line comments may stand between any two lines of any text, before the first and after the last |
| YamlRoundTrip.TrailingSpaceIsIgnored | packages/rules/src/catalog.ts:71-74 | white space before any line end, a carriage return included, changes nothing |
| YamlRoundTrip.TailSilentlyDropped | packages/rules/src/catalog.ts:195-199 | a text with a mapping and then a list in the first column, or the other way round, parses to the first of the two without an error, for any two blocks |
| YamlParser.BlockExtent | packages/rules/src/catalog.ts:177-193 | a block that parses starts in its own column, consumes at least one line and stops at the first later line that closes it, which indentation alone decides |
| YamlParser.ObjectExtent | packages/rules/src/catalog.ts:78-120 | for any lines, a mapping that parses stops at the first line left of its column or an item in its column |
| YamlParser.ArrayExtent | packages/rules/src/catalog.ts:122-175 | for any lines, a list that parses stops at the first line left of its column or an entry in its column |
| YamlParser.WholeDocumentRead | packages/rules/src/catalog.ts:195-199 | a parsed document is read to its last line if and only if all first-column lines are of one kind |
| YamlParser.SignificantLinesAreTrimmed | packages/rules/src/catalog.ts:71-76 | lines that reach the parser are trimmed and not empty |
| YamlParser.NoBareItems | packages/rules/src/catalog.ts:133-145 | an item always has text after its mark, so the branch for a bare mark is dead |
| YamlParser.ParseObject | packages/rules/src/catalog.ts:78-120 | the loop that fills a mapping while moving the index equals the recursive parser the lemmas are about, and ends |
| YamlParser.ParseArray | packages/rules/src/catalog.ts:122-175 | the same for the list loop |
| YamlParser.ParseBlock | packages/rules/src/catalog.ts:177-193 | the same for the dispatch between the two loops |
| YamlParser.ParseDocument | packages/rules/src/catalog.ts:195-199 | the same for a whole text, which is an empty mapping when no line is significant |
| StableJson.SerializeDecidesSame | packages/rules/src/compatibility.ts:4-19 | two JSON values have the same canonical text if and only if they are equal up to the order of object keys at every level |
| StableJson.Decode | apps/gateway/src/replay/redaction.ts:11-24 | canonical texts can be told apart in context: equal texts followed by any separators come from equal values and equal rests |
| StableJson.SameSerialize | packages/rules/src/compatibility.ts:4-19 | the order in which keys were written never shows in the text |
| StableJson.SortedKeysUnique | packages/rules/src/compatibility.ts:11-16 | under a total key order there is one sorted listing of a set of keys |
| StableJson.EscapeAllUnique | packages/rules/src/compatibility.ts:16-18 | a quoted string determines its contents and where it ends |
| Rules.BreakingIffContractDiffers | packages/rules/src/compatibility.ts:21-32 | a change is breaking if and only if one of the six contract fields differs as data |
| Rules.SameContracts | packages/rules/src/compatibility.ts:21-29 | the fingerprint records of two rules are the same data if and only if the six fields are |
| Rules.GateMeaning | packages/rules/src/compatibility.ts:34-58 | the gate opens if and only if game and rule id agree, the version is later in major, minor and patch number, and the contract is unchanged within a major version |
| Rules.SemverRoundTrip | packages/rules/src/schema.ts:84-97 | printing and parsing a version gives it back |
| Rules.SemverShape | packages/rules/src/schema.ts:84-97 | a version is three runs of digits with dots between them, and nothing else is one |
| Rules.SemverTotalOrder | packages/rules/src/schema.ts:99-112 | version precedence is the lexicographic order of major, minor and patch number, a total order |
| RuleRegistry.BuildCatalog | packages/rules/src/catalog.ts:219-242 | the catalog is refused if and only if it would be empty or two rules share a key; otherwise every rule, and nothing else, is found under its key, its game and in order |
| RuleRegistry.KeyIdentifiesRule | packages/rules/src/catalog.ts:256-273 | without colons in ids a key determines game, rule and version |
| RuleRegistry.ColonIdsCollide | packages/rules/src/catalog.ts:271-273 | every rule with a colon in an id shares its key with other ids |
| RuleRegistry.KeyIsUniqueIffPlain | packages/rules/src/catalog.ts:256-273 | a key belongs to one triple of ids and version only if and only if the ids are free of colons |
| RuleRegistry.LatestRuleOfGame | packages/rules/src/catalog.ts:260-269 | the latest rule of a game is one of its loaded rules and no loaded rule of the game has a later version; a game without loaded rules has none |
| RuleRegistry.LatestIsFirst | packages/rules/src/catalog.ts:266-268 | among rules of equal version the first one is the latest |
| RuleRegistry.LookupsAreLoaded | packages/rules/src/catalog.ts:256-258 | every loaded rule is found under its own ids and version, and only loaded rules are found |
| RuleRegistry.Registry.Initialize | apps/engine/src/rules/registry.ts:57-81 | on success every game has a loaded active rule; existing choices stay, missing ones become the latest rule; otherwise the first game that cannot be started decides the error, and only the games before it were filled in |
| RuleRegistry.Registry.PublishRule | apps/engine/src/rules/registry.ts:105-140 | the new active rule and audit entry, or the error and an unchanged registry |
| RuleRegistry.Registry.RollbackRule | apps/engine/src/rules/registry.ts:142-176 | the same for a rollback with or without a target |
| RuleRegistry.Registry.ResolvePreviousRule | apps/engine/src/rules/registry.ts:186-209 | the backward loop finds the latest audited rule that differs from the active one and is still loaded |
| RegistryRuns.RunKeepsChain | apps/engine/src/rules/registry.ts:105-176 | over any run of publishes and rollbacks each audit entry starts where the one before it led, the last leads to the active rule, the active rule is loaded, and no entry is lost |
| RegistryRuns.StepKeepsChain | apps/engine/src/rules/registry.ts:105-176 | one command keeps that chain, whether it succeeds or fails |
| RegistryRuns.DefaultRollbackTarget | apps/engine/src/rules/registry.ts:186-209 | a rollback without target goes to the latest different published rule and fails exactly when there is none |
| RegistryRuns.RollbackTwiceRestores | apps/engine/src/rules/registry.ts:142-209 | two default rollbacks restore the rule that was active before the first |
| RegistryRuns.GateHoldsIffAudited | apps/engine/src/rules/registry.ts:105-124 | every accepted publish of a game supersedes the rule then active if and only if the game has an audit entry |
| RegistryRuns.PublishTells | apps/engine/src/rules/registry.ts:105-140 | the audit entry of a publish names the asked rule, the old rule, actor, reason and time; it is refused exactly when the rule is not loaded, or the game is audited and the rule does not supersede the active one |
| RegistryRuns.RollbackTells | apps/engine/src/rules/registry.ts:142-176 | the same for a rollback, which goes to a named target exactly when that is loaded |
| RegistryRuns.StepTells | apps/engine/src/rules/registry.ts:105-176 | the entry of an accepted command is appended and its rule made active, a refused command changes nothing, other games are untouched |
| RegistryRuns.PublishStep | apps/engine/src/rules/registry.ts:105-140 | on an audited game a publish changes nothing or replaces the active rule by one that supersedes it |
| RegistryRuns.PublishRun | apps/engine/src/rules/registry.ts:105-140 | between any two points of a run of publishes, active versions strictly increase and equal major versions have equal contracts |
| RegistryRuns.BuiltCatalogIsSound | packages/rules/src/catalog.ts:219-242 | catalogs built from rules with plain ids meet what the run lemmas assume |
| Engine.MatchEngine.ProcessAction | apps/engine/src/framework/engine.ts:266-478 | the answer and the whole new state, meta, cache and lock of one call: served from the cache, refused by the lock, or processed |
| Engine.MatchEngine.ProcessLocked | apps/engine/src/framework/engine.ts:292-474 | the writes between taking and releasing the lock are exactly those of the decision taken on what was read |
| Engine.MatchEngine.StartMatch | apps/engine/src/framework/engine.ts:146-186 | the answer and everything a started match stores, over nothing or over an earlier match; an unknown game stores nothing |
| Engine.MatchEngine.ActivateMatch | apps/engine/src/framework/engine.ts:188-197 | activation restarts the turn clock of an existing match and fails otherwise |
| Engine.RedisStore.AcquireTurnLock | apps/engine/src/state/redis-manager.ts:51-55 | the lock is taken exactly when no unexpired lock is there, with its time to live |
| Engine.RedisStore.ReleaseTurnLock | apps/engine/src/state/redis-manager.ts:57-61 | a release succeeds if and only if the caller's own lock is still running, and touches no other lock |
| Engine.RedisStore.SaveMatchMeta | apps/engine/src/state/redis-manager.ts:41-49 | each field that is given replaces the stored one, each other field keeps its value |
| EngineRuns.EventEffect | apps/engine/src/framework/engine.ts:292-478 | for a consistent match, what one event may do to turn, retry counter, state and turn clock; the turn moves by at most one and the second retryable failure consumes it |
| EngineRuns.CallIsExact | apps/engine/src/framework/engine.ts:266-478 | on a consistent match, from the game's own functions: a valid action is answered with the game's result, the termination of the settled state and the turn's context, and leaves the settled state; an invalid one with the game's message, retryable only at a counter of 0; an expired turn with the timeout in force; and what each leaves in state, meta and cache |
| EngineRuns.NothingToPlay | apps/engine/src/framework/engine.ts:292-330 | without meta, state, game id or game a call changes nothing and says which is missing |
| EngineRuns.ActivationRestartsClock | apps/engine/src/framework/engine.ts:188-197 | an activation changes the turn clock alone, and the turn then runs out exactly when the timeout in force has passed since |
| EngineRuns.RunKeepsConsistency | apps/engine/src/framework/engine.ts:266-478 | over any run the stored turn equals the game's turn, the retry counter is 0 or 1, and the turn never decreases |
| EngineRuns.RetriesConsumeTurns | apps/engine/src/framework/engine.ts:368-410 | while no action succeeds, turns consumed are half the retryable failures and the counter is their parity |
| EngineRuns.TurnClockFollowsTurn | apps/engine/src/framework/engine.ts:429-440 | a set turn clock is unchanged while the turn is |
| EngineRuns.ResendIsIdempotent | apps/engine/src/framework/engine.ts:268-274 | a request sent again before its answer expires gets an equal answer and changes nothing, whatever happened in between; the answer is kept if and only if the id is not blank |
| EngineRuns.CachedAnswerStays | apps/engine/src/state/redis-manager.ts:63-91 | a cached answer stays until its key expires |
| EngineRuns.ExpiredMatchIsFrozen | apps/engine/src/framework/engine.ts:497-505 | once a turn has expired no call changes the match until it is activated again |
| EngineRuns.StartedMatchIsConsistent | apps/engine/src/framework/engine.ts:146-186 | what `startMatch` stores, whatever was there before, meets what the run lemmas assume, with the game's initial state and no retries |
| EngineRuns.StartedMatchTells | apps/engine/src/framework/engine.ts:146-186 | a started match is recorded with its game, seed, rule id, version and timeout, taken from the published rule or else from the game's state and defaults |
| EngineProtocol.InterleavingIsSerial | apps/engine/src/framework/engine.ts:266-478 | any interleaving, Redis call by Redis call, of any number of calls leaves the state, meta and cache of a serial order: a list of exactly the calls that took effect, each once, with its own action and the answer it gets in that order, together with exactly the activations and expiries that happened; a refused call is not in it |
| EngineProtocol.AnswersAreExact | apps/engine/src/framework/engine.ts:266-478 | whatever the interleaving, each call that took effect has the answer, and leaves the data, that `EngineRuns.CallIsExact` demands at its place of the serial order |
| EngineProtocol.OrderRespectsTime | apps/engine/src/framework/engine.ts:266-478 | in that serial order a call that took effect before another one began stands at an earlier position |
| EngineProtocol.MetaAgreesWithState | apps/engine/src/framework/engine.ts:429-440 | outside critical sections the stored turn is the game's turn, whatever the interleaving |
| EngineProtocol.SectionIsExclusive | apps/engine/src/framework/engine.ts:276-290 | in every run at most one call is between acquire and release, and until it leaves the lock is not free for anyone |
| EngineProtocol.MoveKeepsInv | apps/engine/src/framework/engine.ts:266-478 | each single Redis call keeps the invariant that ties the store to the history |
| EngineProtocol.RunKeepsInv | apps/engine/src/framework/engine.ts:266-478 | the same over any run; the history only grows |
| EngineProtocol.ReleaseSparesOthers | apps/engine/src/state/redis-manager.ts:57-61 | even for a call that outlived its lock, release leaves a lock under another token in place |
| EngineProtocol.HistoryStaysOk | apps/engine/src/framework/engine.ts:266-478 | each single Redis call keeps the history a list of exactly the calls that took effect, without repetition |
| EngineHypotheses.TimelinessIsNeeded | apps/engine/src/framework/engine.ts:276-290 | a run from a fresh match in which a call outlives its lock and all else is as required, and no serial order explains its answers and data: both calls succeed, one update is lost |
| EngineHypotheses.DistinctIdsAreNeeded | apps/engine/src/framework/engine.ts:268-290 | the same for two overlapping calls with one request id: both are applied, because the cache is not looked at again under the lock |
| EngineHypotheses.ApartnessIsNeeded | apps/engine/src/framework/engine.ts:188-197 | with an activation allowed inside a section, there is a run from a fresh match, meeting all other hypotheses, whose answers and data fit no serial order |
| Pairing.CompatibilityLaws | apps/gateway/src/matchmaking/queue-service.ts:154-191 | compatibility is symmetric and is not lost by waiting longer |
| Pairing.CanMatchMeansMayPlay | apps/gateway/src/matchmaking/queue-service.ts:154-191 | two entries are compatible if and only if their users differ, each rating is within the range the other asked for, and they are at most 200 points apart until both have waited 30 seconds, at most 400 until both have waited 60 |
| Pairing.BestCandidate | apps/gateway/src/matchmaking/queue-service.ts:289-317 | the inner loop finds the preferred compatible free entry behind the current one, or none exists |
| Pairing.BestIsUnique | apps/gateway/src/matchmaking/queue-service.ts:295-317 | that entry is unique |
| Pairing.PassIsMaximalMatching | apps/gateway/src/matchmaking/queue-service.ts:289-326 | chosen pairs are disjoint and compatible, and no two entries left over could be paired |
| Pairing.PassPairsFairly | apps/gateway/src/matchmaking/queue-service.ts:289-326 | in those terms: pairs may play each other, and no two entries left over may |
| Pairing.PartnersAreBest | apps/gateway/src/matchmaking/queue-service.ts:289-326 | each partner is the best among the entries free at that moment |
| Pairing.TieBreakNeverDecides | apps/gateway/src/matchmaking/queue-service.ts:308-312 | on the sorted list preference is rating difference, then position; the queue-time tie-break never fires |
| Pairing.LongWaitersAreServed | apps/gateway/src/matchmaking/queue-service.ts:154-191 | two users without a range who have waited a minute never both stay |
| MatchQueue.MatchQueueService.Enqueue | apps/gateway/src/matchmaking/queue-service.ts:210-256 | the whole new queue and the answer: the active entry afterwards, or which error and exactly when |
| QueueRuns.EnqueueIsPersisted | apps/gateway/src/matchmaking/queue-service.ts:247-255 | the entry of an accepted enqueue, as it was asked for, is the user's active one afterwards, for a day while it waits and for an hour if it is already matched |
| MatchQueue.MatchQueueService.Leave | apps/gateway/src/matchmaking/queue-service.ts:258-269 | the whole new queue after leaving |
| MatchQueue.MatchQueueService.ProcessQueue | apps/gateway/src/matchmaking/queue-service.ts:276-330 | the nested loops with their set of matched ids create exactly the matches of the greedy pass, in order |
| QueueRuns.StatusIsExact | apps/gateway/src/matchmaking/queue-service.ts:271-274 | the status names a waiting entry if and only if that entry of the user and game is alive and waiting, and never an entry of someone else |
| QueueRuns.RunKeepsInv | apps/gateway/src/matchmaking/queue-service.ts:210-452 | after any run and expiry, every live waiting entry is in its game's list exactly once and is its user's active entry; matched entries are in no list; a match has at most two entries, of different users |
| QueueRuns.StepKeepsInv | apps/gateway/src/matchmaking/queue-service.ts:210-330 | enqueue, leave and a matchmaking pass each keep it |
| QueueRuns.PutKeepsInv | apps/gateway/src/matchmaking/queue-service.ts:236-252 | storing a new waiting entry keeps it |
| QueueRuns.LeaveKeepsInv | apps/gateway/src/matchmaking/queue-service.ts:258-269 | leaving keeps it, the user has no active entry afterwards, and nobody else's status changes |
| QueueRuns.CreateKeepsInv | apps/gateway/src/matchmaking/queue-service.ts:383-452 | starting one match keeps it |
| QueueRuns.CreateAllKeepsInv | apps/gateway/src/matchmaking/queue-service.ts:289-326 | the matches of a pass, one after the other, keep it, touch only the paired entries, and mark exactly those as matched |
| QueueRuns.ProcessKeepsInv | apps/gateway/src/matchmaking/queue-service.ts:276-330 | a pass that stops when a match cannot be started keeps it too |
| QueueRuns.NoCompatiblePairSurvives | apps/gateway/src/matchmaking/queue-service.ts:276-330 | after a complete pass no two waiting entries of the game in the store may play each other, in ratings, ranges and waiting times |
| QueueRuns.PassMatchesFairly | apps/gateway/src/matchmaking/queue-service.ts:276-330 | any entry that a pass changes is now matched, under a new match id, with exactly such an entry as it may play, both otherwise unchanged and stored for an hour |
| QueueRuns.SnapshotExact | apps/gateway/src/matchmaking/queue-service.ts:369-381 | the snapshot is sorted and holds exactly the live waiting entries of the game |
| QueueRuns.SnapshotInOrder | apps/gateway/src/matchmaking/queue-service.ts:375-380 | entries of the same time are ordered by their id |
| QueueRuns.TimeKeepsInv | apps/gateway/src/matchmaking/queue-service.ts:346-381 | expiry alone never breaks the agreement |
| QueueRuns.WaitingIsActive | apps/gateway/src/matchmaking/queue-service.ts:346-353 | a live waiting entry is what the status of its user reports |
| BluffDice.RunKeepsInv | apps/engine/src/games/bluff-dice/index.ts:88-130 | in every reachable state the chips total twice the initial ones, the pot is the sum of two affordable bets, bidding alternates, odd rounds are begun by the first agent, rounds are numbered, and the match is finished if and only if all rounds are played or an agent has no chips |
| BluffDice.MatchEndsExactly | apps/engine/src/games/bluff-dice/index.ts:327-345 | over any run the match is over if and only if all rounds are played, an agent has no chips or the turn limit is passed, and the agent with more chips has won |
| BluffDice.AcceptedExactly | apps/engine/src/games/bluff-dice/index.ts:190-282 | in a reachable state exactly affordable first bets, bids of a higher rank and calls of a pending bid by the agent to move are accepted |
| BluffDice.AskedIsDone | apps/engine/src/games/bluff-dice/index.ts:284-407 | a bet and a bid stand as they were asked for; the second bet has the dice of both players rolled |
| BluffDice.ResolveTransfersTheBet | apps/engine/src/games/bluff-dice/index.ts:430-513 | a call moves exactly the loser's bet to the agent who was right about the dice |
| BluffDice.ResolveRecordsTheRound | apps/engine/src/games/bluff-dice/index.ts:430-513 | the record of a round tells the bid, the caller, who was right, the pot, the dice of both and how many of them show the face |
| BluffDice.BidsAreRanked | apps/engine/src/games/bluff-dice/index.ts:545-562 | bids are the ranks 1 to 60, higher means higher rank, and a consumed bid is the next rank or none after the last |
| BluffDice.AdvancingStepsProgress | apps/engine/src/games/bluff-dice/index.ts:284-325 | each bet, bid, call and turn consumed while bidding raises a measure that nothing else changes |
| BluffDice.ConsumedTurnIsNextStation | apps/engine/src/games/bluff-dice/index.ts:136-156 | a turn consumed while bidding is the smallest step of that measure: the next higher bid, or the call after the last one |
| BluffDice.ConsumedTurnIsTheMovers | apps/engine/src/games/bluff-dice/index.ts:136-156 | it is taken in the name of the agent to move |
| BluffDice.MatchIsFinite | apps/engine/src/games/bluff-dice/index.ts:284-325 | a match has at most 63 such steps per round, over any run |
| BluffDice.TurnLaw | apps/engine/src/games/bluff-dice/index.ts:136-156 | an accepted step adds one to the turn, a state query none |
| BluffDice.TurnCountsSteps | apps/engine/src/games/bluff-dice/index.ts:136-156 | over any run the turn is one more than the number of such steps |
| BluffDice.NeverStuck | apps/engine/src/games/bluff-dice/index.ts:190-282 | every unfinished reachable state has a valid action that moves the match on |
| BluffDice.FinishedMatchNamesTheRicher | apps/engine/src/games/bluff-dice/index.ts:564-586 | a finished match names the agent with more than the initial chips, or nobody when both have exactly those |
| BluffDice.CountFaceConcat | apps/engine/src/games/bluff-dice/index.ts:430-450 | counting over the joined dice of both players is the sum of counting each |
| PromptArena.RedactionHidesIffSafe | apps/engine/src/games/prompt-injection-arena.ts:350-366 | for every placeholder, redaction hides the secret in every content if and only if the placeholder has no pattern for the match or its surroundings and its inserted text passes a finite check |
| PromptArena.PatternedPlaceholderLeaks | apps/engine/src/games/prompt-injection-arena.ts:350-362 | any placeholder with such a pattern leaks the secret when it is said three times in a row |
| PromptArena.UnsafePlaceholderLeaks | apps/engine/src/games/prompt-injection-arena.ts:350-362 | each way to rebuild the secret gives a content that redacts to a text with the secret in it |
| PromptArena.NoSecretFrom | apps/engine/src/games/prompt-injection-arena.ts:350-362 | no secret appears across replaced and kept parts, for overlapping occurrences too |
| PromptArena.ForeignEndsAreSafe | apps/engine/src/games/prompt-injection-arena.ts:350-362 | a placeholder without the secret whose end characters are not in it passes the check |
| PromptArena.DefaultPlaceholderIsSafe | apps/engine/src/games/prompt-injection-arena.ts:13 | the default placeholder hides every generated secret in every content |
| PromptArena.RedactedStateHidesSecret | apps/engine/src/games/prompt-injection-arena.ts:350-362 | no message of the redacted state shows the secret; number and roles of messages are unchanged, and so is every message without the secret |
| PromptArena.InnocentTextStays | apps/engine/src/games/prompt-injection-arena.ts:350-362 | a text without the secret is left as it is, whatever the placeholder |
| PromptArena.FirstOccurrenceReplaced | apps/engine/src/games/prompt-injection-arena.ts:350-362 | what stands before the first occurrence is kept, the occurrence becomes the placeholder, and the rest is redacted in the same way |
| PromptArena.GuessesAreLimited | apps/engine/src/games/prompt-injection-arena.ts:248-304 | over any run guesses are counted, limited and preceded by enough dialogue, and the secret counts as leaked if and only if one was right |
| PromptArena.WinnerFollowsGuesses | apps/engine/src/games/prompt-injection-arena.ts:308-334 | over any run the attacker wins if and only if a guess was right, the defender if and only if guesses or turns ran out without one |
| PromptArena.HistoryIsDialogue | apps/engine/src/games/prompt-injection-arena.ts:264-287 | over any run the history is exactly the accepted messages, in order and under the role of their sender |
| PromptArena.AcceptedExactly | apps/engine/src/games/prompt-injection-arena.ts:248-262 | messages and permitted guesses on odd turns, responses on even ones, and nothing else |
| PromptArena.GuessesAreAnsweredTruly | apps/engine/src/games/prompt-injection-arena.ts:288-303 | a guess is answered as a match if and only if it is the secret and makes it count as leaked |
| PromptArena.ApplyAction | apps/engine/src/games/prompt-injection-arena.ts:264-306 | the stepwise update of the copied state gives the transition the run lemmas are about |
| PromptArena.GetDialogueRoundCount | apps/engine/src/games/prompt-injection-arena.ts:377-390 | the counting loop returns the smaller of the two agents' message counts |
| PromptArena.TurnLaw | apps/engine/src/games/prompt-injection-arena.ts:217-222 | a consumed turn adds one, an accepted action one except the winning guess |
| RateLimiter.RedisMatchActionRateLimiter.Allow | apps/gateway/src/websocket/match-action-rate-limiter.ts:7-57 | one run of the script: prune, count, add, renew the expiry |
| RateLimiter.RedisMatchActionRateLimiter.Clear | apps/gateway/src/websocket/match-action-rate-limiter.ts:59-61 | clearing empties the key |
| RateLimiter.KeyShowsWindow | apps/gateway/src/websocket/match-action-rate-limiter.ts:7-26 | at any later time the pruned key holds exactly the window of the full log of admissions |
| RateLimiter.ExpiryDropsOnlyOldEntries | apps/gateway/src/websocket/match-action-rate-limiter.ts:7-26 | the key's expiry never removes an entry that pruning would keep |
| RateLimiter.StepRefines | apps/gateway/src/websocket/match-action-rate-limiter.ts:44-57 | every request keeps key and log in agreement and is admitted if and only if the window has room |
| RateLimiter.LimiterIsSound | apps/gateway/src/websocket/match-action-rate-limiter.ts:44-57 | over any run, between clears, no window of the given length holds more admissions than allowed |
| RateLimiter.RefusedOnlyWhenFull | apps/gateway/src/websocket/match-action-rate-limiter.ts:44-57 | over any run a request is refused if and only if the window ending now is full |
| Rating.ExpectationsAddUp | apps/gateway/src/rating/elo.ts:12-13 | the two expected scores add up to one |
| Rating.EloPointsConserved | apps/gateway/src/rating/elo.ts:15-23 | a match conserves rating points, except that an exact half creates one |
| Rating.WinnerNeverLoses | apps/gateway/src/rating/elo.ts:15-23 | a winner never loses points, a loser never gains any, and no match moves a rating by more than the factor |
| Rating.EqualRatings | apps/gateway/src/rating/elo.ts:15-23 | between equal ratings half the factor changes hands, and a draw changes nothing |
| Rating.NewRatingOrder | apps/gateway/src/rating/elo.ts:15-23 | the more is scored and the stronger the opponent, the higher is the new rating |
| Rating.DrawsNarrowTheGap | apps/gateway/src/rating/elo.ts:15-23 | a draw never moves the higher rating up or the lower one down |
| Rating.OddFactorCreatesPoint | apps/gateway/src/rating/elo.ts:15-23 | between equal ratings and with an odd factor every decided match moves the sum by one point |
| Rating.SortRanks | apps/gateway/src/rating/repository.ts:22-31 | sorting gives a strictly ranked permutation |
| Rating.BoardOrder | apps/gateway/src/rating/repository.ts:22-31 | on a ranking a higher place means a higher rating, then more matches, then the smaller uid |
| Rating.RankingIsUnique | apps/gateway/src/rating/repository.ts:22-31 | there is only one ranking of given ratings |
| Rating.FindAfterPut | apps/gateway/src/rating/repository.ts:38-44 | saving one rating changes the lookup of its own key only |
| Rating.TotalsAfterPut | apps/gateway/src/rating/repository.ts:38-50 | what saving one rating does to the size and the total of each season |
| RatingService.Service.ProcessMatchResult | apps/gateway/src/rating/service.ts:150-212 | the rejection of a bad job, or the whole new repository |
| RatingService.WinnerIsStoredHigher | apps/gateway/src/rating/service.ts:150-212 | a result raises or keeps the stored rating of its winner and lowers or keeps that of its loser |
| RatingService.FirstMatch | apps/gateway/src/rating/service.ts:150-212 | two newcomers at a factor of 32 are stored at 1516 and 1484, or both at 1500 after a draw |
| RatingService.AcceptedExactly | apps/gateway/src/rating/service.ts:150-163 | a job counts if and only if it names two different players and nobody else, a winner among them if any, and a valid date |
| RatingService.QuarterMonths | apps/gateway/src/rating/service.ts:25-36 | seasons begin in January, April, July and October |
| RatingService.Service.EnsureSeasonForDate | apps/gateway/src/rating/service.ts:112-148 | the seasons after archiving the others and activating or creating this one |
| RatingService.SeasonLaws | apps/gateway/src/rating/service.ts:112-148 | at most one active season, the season of a result becomes active unless it has been before, other seasons stay as they are or are archived, none disappears |
| RatingService.RecordsAreExact | apps/gateway/src/rating/service.ts:50-57 | over any run matches and the wins read back from the stored win rate are exact, for any stored error below half a win |
| RatingService.EloTotalIsAccounted | apps/gateway/src/rating/service.ts:150-212 | over any run a season's total is 1500 per player plus the exact halves, of which a match makes at most one |
| RatingService.ProcessTotal | apps/gateway/src/rating/service.ts:150-212 | one result moves the total of its own season by one exactly when it creates a point |
| RatingService.RunIsOrderly | apps/gateway/src/rating/service.ts:112-148 | over any run at most one season is active, archived ones stay archived, and each saved leaderboard ranks the current ratings |
| RatingService.LeaderboardIsUnique | apps/gateway/src/rating/service.ts:59-73 | a saved leaderboard is the only strict ranking of its ratings |
| VectorGrid.ApplyAction | apps/engine/src/games/vector-grid-wars/index.ts:247-294 | writing cells of a cloned grid gives the transition the run lemmas are about |
| VectorGrid.PlacementAddsOne | apps/engine/src/games/vector-grid-wars/index.ts:258-275 | a placement gives the current player one cell and nobody else any |
| VectorGrid.PlacementFrame | apps/engine/src/games/vector-grid-wars/index.ts:258-275 | a placement writes its own cell with the mover's name and the trimmed concept, and no other cell |
| VectorGrid.AcceptedExactly | apps/engine/src/games/vector-grid-wars/index.ts:176-245 | while the match lasts exactly a short concept on an empty cell and a step of one's own unit to an empty cell beside it are accepted, and looking always |
| VectorGrid.OverAfterLastTurn | apps/engine/src/games/vector-grid-wars/index.ts:296-306 | over any run a match is marked as over only after its last turn, and the check after that turn marks it |
| VectorGrid.MoveFrame | apps/engine/src/games/vector-grid-wars/index.ts:276-291 | a move exchanges two cells and leaves every other cell as it was |
| VectorGrid.MovePermutesCells | apps/engine/src/games/vector-grid-wars/index.ts:276-291 | a move keeps the multiset of cells and every player's count |
| VectorGrid.ControlledCellsArePlacements | apps/engine/src/games/vector-grid-wars/index.ts:344-349 | over any run each agent controls as many cells as it has placed units |
| VectorGrid.TurnLaw | apps/engine/src/games/vector-grid-wars/index.ts:149-154 | a consumed turn adds one, an accepted action one unless it only reads the board |
| VectorGrid.MockEvaluate | apps/engine/src/games/vector-grid-wars/judge.ts:147-176 | the nested loops count the visible board and the higher count wins; a count is the controlled cells if and only if that agent has no unit beyond it, and without such units the winner is the agent who controls more cells |
| VectorGrid.JudgedCount | apps/engine/src/games/vector-grid-wars/judge.ts:147-176 | the judge never counts more than `countControlledCells`, and as many if and only if no unit of the agent is outside the first ten rows and columns |
| VectorGrid.LeaderHasMore | apps/engine/src/games/vector-grid-wars/judge.ts:165-168 | the leader is the agent with the higher count, and nobody when the counts are equal |
| VectorGrid.JudgeIsRightIffSmall | apps/engine/src/games/vector-grid-wars/judge.ts:147-176 | the judge names the agent with more controlled cells on every playable board if and only if boards are at most ten by ten, or rules allow no placement |
| VectorGrid.JudgeNamesTheWrongAgent | apps/engine/src/games/vector-grid-wars/judge.ts:147-176 | on every larger board a run of four steps makes the judge name the agent who controls fewer cells |
| DilemmaPoker.ApplyAction | apps/engine/src/games/dilemma-poker/index.ts:256-313 | the stepwise update of the copied state gives the transition the run lemmas are about |
| DilemmaPoker.ChipsAreAccounted | apps/engine/src/games/dilemma-poker/index.ts:393-434 | over any run each player's chips are the initial ones plus all recorded changes, which are what the two choices of the round pay |
| DilemmaPoker.PlayIsRecorded | apps/engine/src/games/dilemma-poker/index.ts:256-313 | messages and choices are kept under the agent to move, and the second choice records the round with its messages and both choices |
| DilemmaPoker.AcceptedExactly | apps/engine/src/games/dilemma-poker/index.ts:214-254 | visible messages of up to 500 characters while negotiating, one of the two choices in the action phase, status queries always |
| DilemmaPoker.PendingChoicesAreHidden | apps/engine/src/games/dilemma-poker/index.ts:355-372 | over any run a spectator never sees a pending choice, and sees everything else |
| DilemmaPoker.AgentsAlternate | apps/engine/src/games/dilemma-poker/index.ts:378-391 | over any run without consumed turns the first agent begins odd rounds, the second even ones, and they alternate within a round |
| DilemmaPoker.ActionSlots | apps/engine/src/games/dilemma-poker/index.ts:378-391 | the two action turns of a round belong to different agents if and only if a round has at most two messages |
| DilemmaPoker.ActionKeepsAlignment | apps/engine/src/games/dilemma-poker/index.ts:256-313 | turns, messages and commits line up, and nobody commits twice in a round |
| DilemmaPoker.RunStaysAligned | apps/engine/src/games/dilemma-poker/index.ts:378-391 | over any run without consumed turns the turn is the position in the round plus all earlier rounds |
| DilemmaPoker.MatchLength | apps/engine/src/games/dilemma-poker/index.ts:315-338 | such a match has ended if and only if (messages + 2) times rounds actions were accepted |
| DilemmaPoker.CommitsAreFairIffFewMessages | apps/engine/src/games/dilemma-poker/index.ts:378-391 | over all runs without consumed turns no accepted commit comes from an agent who has already committed in the round, if and only if a round has at most two messages |
| DilemmaPoker.ThreeMessagesMisalign | apps/engine/src/games/dilemma-poker/index.ts:378-391 | with three or more messages the run that opens a match with all messages and any two commits has both commits from one agent, and its round stays open |
| DilemmaPoker.TurnLaw | apps/engine/src/games/dilemma-poker/index.ts:186-191 | for any number of messages a consumed turn adds one, an accepted action one unless it only asks |
| DilemmaPoker.WinnerGainedMore | apps/engine/src/games/dilemma-poker/index.ts:315-338 | over any run an ended match is won by the agent whose recorded chip changes add up to more, and otherwise drawn |
| DeviceFlow.AnswersAreDue | apps/gateway/src/auth/device-flow.ts:431-482 | over any run the store with its lazy deletions answers each exchange as the history of the device code alone demands |
| DeviceFlow.AnswersMoveForward | apps/gateway/src/auth/device-flow.ts:431-482 | the answers to a code move forward through pending, one success, already consumed, expired, not found |
| DeviceFlow.SuccessCarriesLastActivation | apps/gateway/src/auth/device-flow.ts:396-429 | a success carries the token details of the last activation, made with the code's own user code |
| DeviceFlow.StepAgrees | apps/gateway/src/auth/device-flow.ts:366-482 | every service call keeps the store in agreement with the histories of all issued codes |
| DeviceFlow.IssueTells | apps/gateway/src/auth/device-flow.ts:366-394 | a new session is pending, lives for the configured time and carries the first drawn user code that is not known |
| DeviceFlow.LookupTells | apps/gateway/src/auth/device-flow.ts:166-180 | a lookup finds what is stored and not over, removes what is over with its index entry, and touches no other session |
| DeviceFlow.NonEmptyMeansVisible | apps/gateway/src/auth/device-flow.ts:99-100 | a code or token counts if and only if some character of it is not white space |
| DeviceIndex.ActivationReachesExactly | apps/gateway/src/auth/device-flow.ts:396-429 | over any run an activation approves a code if and only if it is valid, the code is live, not exchanged and carries that user code, and since its issue no other code with that user code was exchanged that had expired but was still stored |
| DeviceIndex.ActivationAnswersAreDue | apps/gateway/src/auth/device-flow.ts:396-429 | over any run the answer to an activation follows from the histories: invalid, expired within an hour of the code's end and not found after it, and for a live code approved, misnamed, consumed, or expired when its index entry was lost |
| DeviceIndex.LeadsUntilTwinLost | apps/gateway/src/auth/device-flow.ts:156-219 | over any run the user-code index leads to a live code that is not exchanged if and only if since its issue no other code with that user code was exchanged that had expired but was still stored |
| DeviceIndex.RunStaysAlone | apps/gateway/src/auth/device-flow.ts:156-219 | over any run the user-code index leads the user code of a live code to that code or nowhere |
| DeviceIndex.RunKeepsApart | apps/gateway/src/auth/device-flow.ts:366-373 | over any run live codes have different user codes, because a live code's user code is known and not drawn |
| DeviceIndex.StaleSessionDropsIndex | apps/gateway/src/auth/device-flow.ts:216-219 | how that happens: an old session with the same user code is looked up and deleted, and the live new one answers "expired" to its own user code |
| DeviceIndex.UserCodeCanBeLost | apps/gateway/src/auth/device-flow.ts:366-394 | for every configuration a run of three calls reaches that: the user code is drawn again once it is no longer known, and the live code cannot be activated |
| DeviceFlow.WithoutExpired | apps/gateway/src/auth/device-flow.ts:221-235 | the clean-up loop keeps exactly the codes whose time is not over |
| DeviceFlow.InMemoryDeviceAuthSessionStore.FindByDeviceCode | apps/gateway/src/auth/device-flow.ts:166-180 | the lookup, its clean-up and its deletion of an expired session, as the whole new store |
| DeviceFlow.InMemoryDeviceAuthSessionStore.FindByUserCode | apps/gateway/src/auth/device-flow.ts:182-191 | the lookup through the user-code index |
| DeviceFlow.InMemoryDeviceAuthSessionStore.Update | apps/gateway/src/auth/device-flow.ts:193-200 | a stored session is replaced, a missing one is an error |
| DeviceFlow.DeviceAuthService.IssueAuthorization | apps/gateway/src/auth/device-flow.ts:366-394 | the loop issues a pending session under the first drawn user code that is not known |
| DeviceFlow.DeviceAuthService.ActivateAuthorization | apps/gateway/src/auth/device-flow.ts:396-429 | the whole new store and the answer, with every error case |
| DeviceFlow.DeviceAuthService.ExchangeToken | apps/gateway/src/auth/device-flow.ts:431-482 | the same for an exchange |

## Left out

Not modelled:

- `apps/gateway/src/app.ts`, the CLI, the Python client, the agent runner, the web UI: sockets, sessions, timers and network code.
- LLM judge calls, Firestore, Cloud Tasks, HTTP routes, zod and ajv: I/O and libraries; schema validation is one predicate on rules.
- HMAC, SHA-256, base64url, UUIDs, `Math.sin`: ids and dice are parameters that the statements quantify over.
- `maskSecretFields`, `listMatchesPage`, role checks, logger masking, the circuit breaker: they would add only easy members.
- The Redis device store: its known codes expire an hour after issue, not after expiry, so it is another machine.
- The lock of the matchmaking queue: it has no owner token; enqueue, leave and a pass are single steps instead.

How the models differ from the code:

- YamlParser.ParseDocument: mappings are ordered lists of entries, so the order JavaScript gives to integer-like keys and its treatment of `__proto__` are not captured; characters are Unicode scalar values, numbers are exact.
- YamlRoundTrip.DocumentRoundTrip: covers non-empty mappings with distinct keys and non-empty lists; keys without `:` that do not look like items or comments; no lists of lists, which have no notation.
- StableJson.SerializeDecidesSame: numbers are their canonical text and key order is any total order in place of `localeCompare`.
- RuleRegistry.BuildCatalog: takes the definitions after sorting, whose `localeCompare` is a parameter elsewhere; reading files is not modelled.
- RuleRegistry.Registry.PublishRule: the two Redis writes of a publish are one step.
- Engine.MatchEngine.ProcessAction: games are pure functions, and the definition handed to a game is a parameter; the ten-minute expiry of state and meta is not modelled, the expiry of cached answers and locks is; numbers in the meta hash are already parsed.
- EngineProtocol.InterleavingIsSerial: assumes fresh lock tokens, different request ids for calls that overlap (the early check is not repeated under the lock), critical sections that end within the lock's time to live, and no activation inside one; `activateMatch`, two Redis calls (apps/engine/src/framework/engine.ts:188-197), is one move.
- MatchQueue.MatchQueueService.Enqueue: an active key is a pair of user and game; a failing engine start is a pass that has run out of match ids; Redis and the service share one clock.
- BluffDice.RunKeepsInv: initial chips, rounds and the bet limit are at least 1; rolled dice are any function of seed, round and player.
- PromptArena.RedactionHidesIffSafe: escaping the secret for the regular expression is taken as literal matching; the secret is not empty, as generated ones are.
- RateLimiter.LimiterIsSound: one clock that does not go back, and a member of its own for every request.
- Rating.EloPointsConserved: 10^(d/400) is any positive function with p(d) * p(-d) = 1, increasing where different opponents are compared; arithmetic is over the reals.
- RatingService.RecordsAreExact: the stored win rate may be off by an arbitrary error as long as matches times error is below one half; season dates and the leaderboard cache are not modelled.
- VectorGrid.ApplyAction: coordinates that are not integers are -1, which is out of bounds as they are refused.
- DilemmaPoker.RunStaysAligned: numbers of messages, rounds and chips are integers.
- DilemmaPoker.MatchLength: stated for one or two messages per round and no consumed turns; with more messages the rounds no longer line up, as DilemmaPoker.CommitsAreFairIffFewMessages says.
- DeviceFlow.AnswersMoveForward: each service call reads the clock once and is one step; device codes are never drawn twice. The four optional token fields of a session are one optional record. An issue whose drawn user codes are all known, an endless loop in the source, ends without a session.
