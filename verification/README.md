# A verified model of the Steem node's core algorithms

This project models, in Dafny, the parts of a Steem blockchain node that carry the most logic, and proves what they
are for. `dafny verify dfyconfig.toml` checks everything; nothing is executed.

The model follows the source's own form: objects whose methods update fields are classes, in-place loops are methods
with invariants, and each of them is proved equal to a function on values (the state before, the arguments). The
theorems are about those functions, and so about every run of the methods.

- **Authorities** (`SignState`, `AuthorityReplay`, `AuthorityMeaning`, `AuthorityLimits`, `AuthorityExamples`,
  `RequiredSignatures`, `Verdicts`): the memoising, early exiting, depth-limited checker of weighted multi-signatures.
  Replaying a run with the keys it used gives the same run; every yes is true in the least fixed point, on cyclic
  graphs too; where no limit strikes, every answer of a run is that of plain recursion over the accounts approved before
  its first check; where one strikes, what it cuts off does not count. Key choice is sufficient for verification,
  minimisation keeps what verifies, and the verdict names the first authority that does not hold.
- **Witness scheduler** (`VirtualTime`, `WitnessVotes`, `Witnesses`, `WitnessRounds`, `VoteShares`, `WitnessOutcomes`,
  `WitnessScheduler`): virtual-time rounds with overflow resets, what votes buy, the choice and shuffle of the schedule,
  majority version, hardfork votes and medians.
- **Fork database** (`ForkState`, `ForkDatabase`, `ForkSwitch`): the tree of recent blocks, its head, pruning, branches
  and switching between them.
- **Sync bookkeeping** (`SyncState`, `SyncLifecycle`, `SyncNode`, `Synopsis`): who is asked for which block and what
  becomes of it, the lists of announced blocks, and the synopsis sent to a peer.
- **Block log** (`BlockLogState`, `BlockLog`): the append-only log and its offset index, with recovery on open.
- **128-bit arithmetic** (`Bits`, `UInt128`, `Decimal`, `NumberText`): limb products, shifts, long division, printing
  and parsing.
- **Merkle root and prices** (`MerkleRoot`, `Price`).

`Common` holds the option type, the word sizes and the powers of two they share.

Assumptions made explicit: an authority's two maps are sequences in iteration order; hashes, digests and the block
codec are parameters (the codec self-delimiting); the witness indexes arrive as sequences in their documented order;
account names are compared as one integer; the pseudo-random values of the shuffle, the answers of the client and the
verdicts on blocks are arbitrary; a message handler or loop iteration of the network code is one atomic step.

Six properties that one would expect turn out to be false of the code. Each has a concrete counterexample and the
condition under which it does hold:

- More signatures can turn a yes into a no: when the authority graph is one level higher than the depth limit
  (`NotMonotoneBeyondHeight`, at the limits the chain database passes), and when the account budget runs out
  (`NotMonotoneBeyondBudget`). They cannot when all of these hold: the graph is no higher than the depth limit, no
  authority in it reaches the membership limit, no 32-bit total can wrap, and the accounts within the depth limit fit
  the account budget (`MonotoneWithinLimits`).
- The keys chosen for a transaction need not verify when owner and active authorities are mixed
  (`MixedMayNotVerify`). No authority is missing when they are not mixed, or when every authority asked for meets the
  four conditions above (`RequiredSignaturesSuffice`).
- A keyed witness can starve forever across virtual-time resets if it has no votes at all (`ResetsStarve`); with a
  single vote it cannot (`EveryVoteCounts`).
- Witnesses that are not voted in do not always get turns in proportion to their votes, as virtual time is meant to give
  them. In all runs without a reset they do, up to one turn each, if and only if there is one slot
  (`ProportionalIffOneSlot`, with `SharedSlots` for every larger number), which is so under the usual limit of 20 voted
  witnesses (`OneSlotLeft`).
- A registered block need not be owed by any peer, and then no peer is ever asked for it again (`OrphanForever`). In
  every state of every run this is so if and only if the peer that owed the block denied having it
  (`OrphanedIffDenied`).
- Two fork branches that end at the same previous id need not meet in a block: switching fails for a database started
  at a block whose parent arrives later (`StartedBlockFails`), and for a parent that was pruned and pushed again
  (`PrunedParentFails`). In a given database all pairs of blocks switch exactly if and only if blocks with the same
  previous block are linked alike (`SwitchesIffSiblings`), which every run has that starts no second tree
  (`RunSwitches`).

Besides, reopening a log of exactly one block whose index does not have exactly one entry leaves an empty index
(`Open` states it with the exact condition), after which reading that block throws.

Where code and comments disagree, the model follows the code: the comment on the virtual lap speaks of 1000 times the
maximum of votes, the code uses the greatest 128-bit number; the depth limit is compared for equality; the printer's
buffer is static and shared.

## Model

| member | source | states |
|---|---|---|
| Authorities.Initial | src/core/protocol/sign_state.cpp:101-110 | a fresh checker holds exactly the given signatures, none flagged used, and only the account "temp" approved |
| SignStates.SignState.constructor | src/core/protocol/sign_state.cpp:101-110 | the initial state, with recursion depth 2 and the other limits off |
| SignStates.SignState.SignedByKey | src/core/protocol/sign_state.cpp:6-17 | the answer and the flags are those of the specification: a provided or available key is flagged used, any other changes nothing |
| SignStates.SignState.CheckKeys | src/core/protocol/sign_state.cpp:33-49 | the key loop computes the specified scan: total, membership, early exit and flags |
| SignStates.SignState.CheckAuthorityImpl | src/core/protocol/sign_state.cpp:31-87 | answer, flags, memo and account counter of the whole recursion are those of the recursive specification |
| SignStates.SignState.CheckAccount | src/core/protocol/sign_state.cpp:53-78 | an approved account counts at once, any other is checked one level deeper and remembered if approved |
| SignStates.SignState.CheckAuthority | src/core/protocol/sign_state.cpp:19-29 | a check by account id or by authority is the specified check, including the initial account count |
| SignStates.SignState.RemoveUnusedSignatures | src/core/protocol/sign_state.cpp:89-99 | afterwards exactly the used keys are left, and the answer says whether any was dropped |
| AuthorityReplay.ReplayImpl | src/core/protocol/sign_state.cpp:31-87 | one recursive check repeats its answer, counter, approvals and flags under any key set between the keys it used and the keys it had |
| AuthorityReplay.RunChecksExtends | src/core/protocol/sign_state.cpp:6-87 | a run never changes which keys count as signed and never retracts a flag or an approval |
| AuthorityReplay.Replay | src/core/protocol/sign_state.cpp:6-99 | replay: for any run of checks under any limits, rerunning it with any key set between the keys flagged used and the full set gives identical answers, approvals and used keys |
| AuthorityMeaning.FixedPoint | src/core/protocol/sign_state.cpp:31-87 | the reference meaning is a fixed point: an account is approvable exactly when it is in the base or its authority is satisfied |
| AuthorityMeaning.SatisfiedIsPlain | src/core/protocol/sign_state.cpp:31-87 | satisfied in the least fixed point means met at some depth of plain, uncached recursion |
| AuthorityMeaning.PlainIsSatisfied | src/core/protocol/sign_state.cpp:31-87 | what plain recursion meets at any depth is satisfied in the least fixed point |
| AuthorityMeaning.ImplSound | src/core/protocol/sign_state.cpp:31-87 | a single positive answer, despite memo, early exits and 32-bit wrap, is satisfied in the least fixed point, and the memo stays inside it |
| AuthorityMeaning.RunSound | src/core/protocol/sign_state.cpp:19-87 | soundness of whole runs over any graph, cyclic or not, and any limits: every yes holds in the least fixed point and the approved accounts never leave it |
| AuthorityMeaning.ImplCount | src/core/protocol/sign_state.cpp:51-72 | a check never charges more accounts to the budget than lie within its remaining levels, and never exceeds the budget |
| AuthorityMeaning.ImplComplete | src/core/protocol/sign_state.cpp:31-87 | if no total wraps and neither membership limit nor account budget can strike, whatever plain recursion approves within the remaining depth, the checker approves |
| AuthorityMeaning.Sandwich | src/core/protocol/sign_state.cpp:31-87 | on any graph, whatever earlier checks remembered, the checker lies between plain recursion within the depth limit and plain recursion of some depth, both over the accounts approved at the start |
| AuthorityMeaning.Exact | src/core/protocol/sign_state.cpp:19-87 | on graphs no higher than the depth limit, with the other limits out of reach, a check says yes exactly when plain recursion over the accounts approved at the start does, and exactly when the least fixed point does |
| AuthorityMeaning.RunExact | src/core/protocol/sign_state.cpp:19-87 | every answer of a run of such checks is the one of plain recursion over the accounts approved before the first check, so the memo never shows |
| AuthorityMeaning.MonotoneWithinLimits | src/core/protocol/sign_state.cpp:19-87 | there, more signatures or approvals never turn a yes into a no |
| AuthorityLimits.MembershipCutsKeys | src/core/protocol/sign_state.cpp:33-49 | a check with at least as many keys as the membership limit says yes only if the keys before the limit reach the threshold, and exactly then when no total wraps; accounts never count |
| AuthorityLimits.MembershipCutsAccounts | src/core/protocol/sign_state.cpp:51-85 | when the limit falls among the accounts, a yes needs the weight of all keys and of the accounts before the limit alone |
| AuthorityLimits.FortyFirstKeyIsIgnored | src/core/protocol/sign_state.cpp:44-48 | at the limit of 40, a signature by the last of 41 keys is not enough |
| AuthorityLimits.NothingIsFollowed | src/core/protocol/sign_state.cpp:51-72 | at the depth limit or with the budget spent, only signed keys and remembered accounts count, and neither memo nor counter change |
| AuthorityLimits.NameIsCharged | src/core/protocol/sign_state.cpp:19-29 | a check by name charges the named account to the budget: at a budget of one no other account is followed |
| AuthorityLimits.RunUses | src/core/protocol/sign_state.cpp:6-87 | every key a run uses is signed or available, and occurs in an authority within the depth limit of one checked |
| AuthorityExamples.NotMonotoneBeyondHeight | src/core/protocol/sign_state.cpp:51-84 | a graph one level too high, at limits 2, 40 and 125, where adding a signature turns yes into no though no other limit is near |
| AuthorityExamples.NotMonotoneBeyondBudget | src/core/protocol/sign_state.cpp:58-63 | a graph within the depth limit but not within the account budget, where adding a signature turns yes into no |
| RequiredSignatures.GetRequiredSignatures | src/core/protocol/transaction.cpp:101-162 | refused exactly when posting is mixed with owner or active; otherwise the available keys that the run of checks used |
| RequiredSignatures.Verify | src/core/protocol/include/steem/protocol/transaction_util.hpp:7-103 | the verification loops give the specified verdict, with the first missing authority in the source's order |
| RequiredSignatures.UsedKeysVerify | src/core/protocol/transaction.cpp:101-162 | if all checks succeed while keys are chosen, then verification accepts exactly the used keys and calls every larger set at hand irrelevant |
| RequiredSignatures.ReorderedHold | src/core/protocol/include/steem/protocol/transaction_util.hpp:68-99 | when all authorities fit the limits, checks that succeed in the order of choosing keys succeed in the order of verification |
| RequiredSignatures.FittingKeysVerify | src/core/protocol/transaction.cpp:101-162 | then, mixed or not, no authority is missing for any key set between the used keys and everything at hand |
| RequiredSignatures.RequiredSignaturesSuffice | src/core/protocol/transaction.cpp:101-162 | the returned keys with the signatures already present leave no authority missing, if owner and active are not mixed or all authorities fit; unmixed they verify if and only if every present signature was used |
| RequiredSignatures.MixedMayNotVerify | src/core/protocol/transaction.cpp:141-153 | a transaction mixing owner and active authorities whose chosen keys do not verify |
| RequiredSignatures.DemandsExact | src/core/protocol/include/steem/protocol/transaction_util.hpp:31-103 | within the limits, verification finds nothing missing exactly when each demand has an alternative that holds in plain recursion |
| RequiredSignatures.NeverGoesMissing | src/core/protocol/include/steem/protocol/transaction_util.hpp:31-103 | within the limits, adding keys never makes an authority go missing |
| Verdicts.MixedVerdict | src/core/protocol/include/steem/protocol/transaction_util.hpp:37-40 | the verdict is that authorities are mixed exactly when a posting authority is asked for beside any other |
| Verdicts.NoPostingMissing | src/core/protocol/include/steem/protocol/transaction_util.hpp:37-66 | within the limits no posting authority is missing exactly when each holds in plain recursion, by itself or through the active or the owner authority of its account |
| Verdicts.PostingVerdict | src/core/protocol/include/steem/protocol/transaction_util.hpp:37-66 | otherwise the verdict names the first that does not hold |
| Verdicts.NothingMissing | src/core/protocol/include/steem/protocol/transaction_util.hpp:68-96 | without posting authorities nothing is missing exactly when every other authority holds, every active one by itself or through the owner authority, and every owner authority |
| Verdicts.OtherVerdict | src/core/protocol/include/steem/protocol/transaction_util.hpp:78-81 | otherwise the verdict names the first other authority that does not hold |
| Verdicts.ActiveVerdict | src/core/protocol/include/steem/protocol/transaction_util.hpp:83-89 | then the first active one |
| Verdicts.OwnerVerdict | src/core/protocol/include/steem/protocol/transaction_util.hpp:91-96 | then the first owner authority |
| RequiredSignatures.Minimize | src/core/protocol/transaction.cpp:174-204 | the result is a subset that verifies if the start did; every proper subset of it lies below a key set with an authority missing, so it is minimal when verification is monotone; only a failure that is not one of the four missing-authority errors escapes |
| RequiredSignatures.MinimizeRequiredSignatures | src/core/protocol/transaction.cpp:164-204 | the result is a subset of the keys required under default limits and verifies whenever that set does; within the limits every proper subset of it has an authority missing; it throws only for mixed posting or for an error that is not one of the four |
| VirtualTime.Reach | src/core/chain/witness_schedule.cpp:113-129 | the scan stops only behind a witness that takes a slot, and processes at least one if it can |
| VirtualTime.LapRange | src/core/chain/witness_schedule.cpp:137 | every 64-bit vote count gives a positive 128-bit lap, and more votes never a longer one |
| VirtualTime.RoundIsTurn | src/core/chain/witness_schedule.cpp:108-148 | a round without overflow moves exactly those due by the new time one lap past it and leaves all others, which are due no earlier |
| VirtualTime.RoundKeeps | src/core/chain/witness_schedule.cpp:108-154 | virtual time never decreases without a reset, and no scheduled time falls behind it |
| VirtualTime.RunsExist | src/core/chain/witness_schedule.cpp:108-154 | the index by time always has an order, so runs of any length exist from every clock |
| VirtualTime.RankFalls | src/core/chain/witness_schedule.cpp:108-154 | while a witness waits, each round lowers the number of turns others can still take before it |
| VirtualTime.NoStarvation | src/core/chain/witness_schedule.cpp:84-154 | in every run without reset longer than that number, every keyed witness that is not elected gets a slot |
| VirtualTime.NextTurn | src/core/chain/witness_schedule.cpp:84-154 | after a turn, a witness waits at most as many rounds as the sum, over all witnesses itself included, of one more than the whole laps of that witness in its own lap |
| VirtualTime.NoResetWhileWaiting | src/core/chain/witness_schedule.cpp:133-154 | after a reset, no further reset can happen while a witness with a vote is still waiting |
| VirtualTime.EveryVoteCounts | src/core/chain/witness_schedule.cpp:84-154 | over every run, with any number of overflow resets, a keyed witness with a vote gets a slot within a bound fixed at the start |
| VirtualTime.ResetsStarve | src/core/chain/witness_schedule.cpp:133-154 | in every run from a reset with one slot left, a witness without votes never gets it beside one with a single vote |
| VirtualTime.RivalsExist | src/core/chain/witness_schedule.cpp:133-154 | such a situation with twenty elected witnesses exists |
| WitnessVotes.TallyCounts | src/core/chain/witness_schedule.cpp:158-174 | the counting tables are ordered and agree with the votes on every count and every cumulative count |
| WitnessVotes.TallyKeys | src/core/chain/witness_schedule.cpp:158-174 | the keys of a table are exactly the values voted for, each with its number of votes |
| WitnessVotes.CountVotes | src/core/chain/witness_schedule.cpp:161-174 | the counting loop builds that table |
| WitnessVotes.ScanExact | src/core/chain/witness_schedule.cpp:176-191 | the cumulative scan stops at the first key whose cumulative count reaches the requirement, and only fails if none does |
| WitnessVotes.VersionExact | src/core/chain/witness_schedule.cpp:156-191 | the majority version is the highest running version that the required number of witnesses run or exceed; it is unchanged if there is none |
| WitnessVotes.MajorityVersion | src/core/chain/witness_schedule.cpp:176-191 | the scanning loop computes that version |
| WitnessVotes.OneWinner | src/core/chain/witness_schedule.cpp:193-213 | if more than half is required, at most one pair of hardfork and time can win |
| WitnessVotes.HardforkExact | src/core/chain/witness_schedule.cpp:193-222 | what is stored is the first pair in order with the required votes; if nobody has them, the current version with the time untouched |
| WitnessVotes.WinnerStored | src/core/chain/witness_schedule.cpp:193-222 | a pair with the required votes, more than half, is the one stored |
| WitnessVotes.MajorityVote | src/core/chain/witness_schedule.cpp:193-213 | the search loop finds that first pair |
| WitnessVotes.SortedSorts | src/core/chain/witness_schedule.cpp:41-65 | the sort yields a sorted permutation |
| WitnessVotes.MiddleIsMedian | src/core/chain/witness_schedule.cpp:41-65 | the middle of any sorted permutation has at most half of the values below it and more than half at or below it |
| WitnessVotes.OneMedian | src/core/chain/witness_schedule.cpp:41-65 | that determines the median, whatever the sort does with ties |
| WitnessVotes.MajorityHoldsMedian | src/core/chain/witness_schedule.cpp:30-82 | no minority moves a median outside the range of a strict majority |
| Witnesses.SlotsFilled | src/core/chain/witness_schedule.cpp:113-129 | the timeshare loop fills no more than the free slots, and leaves one free only after processing everyone |
| Witnesses.ActiveIsSound | src/core/chain/witness_schedule.cpp:90-131 | the chosen witnesses are distinct, keyed, at most 21, and start with the top of the keyed vote order |
| Witnesses.ActiveIsFull | src/core/chain/witness_schedule.cpp:90-131 | either 21 are chosen or every keyed witness is |
| Witnesses.ElectedOutrank | src/core/chain/witness_schedule.cpp:90-104 | every elected witness outranks every keyed one that is not elected |
| Witnesses.ShufflePermutes | src/core/chain/witness_schedule.cpp:243-259 | whatever the generator yields, the shuffle permutes the scheduled slots and leaves the rest alone |
| Witnesses.ShuffleReaches | src/core/chain/witness_schedule.cpp:243-259 | every permutation of the scheduled slots is the shuffle by some generator |
| Witnesses.PermutedDistinct | src/core/chain/witness_schedule.cpp:243-259 | a shuffled list without duplicates has none |
| Witnesses.PayIsSum | src/core/chain/witness_schedule.cpp:239-241 | the weighted counts equal the sum of the weights of the marked witnesses |
| Witnesses.WrapsBelow | src/core/chain/witness_schedule.cpp:137-142 | the source's overflow test is true exactly when the 128-bit sum does not fit |
| WitnessRounds.NextIsRound | src/core/chain/witness_schedule.cpp:108-154 | an update of the witness objects moves the virtual clock exactly as a virtual-time round |
| WitnessRounds.FieldKept | src/core/chain/witness_schedule.cpp:84-154 | an update leaves unchanged all that the next choice depends on besides times |
| WitnessRounds.RoundsAreLegal | src/core/chain/witness_schedule.cpp:84-154 | every run of updates with fixed votes and keys is a run of virtual-time rounds |
| WitnessRounds.WitnessIsChosen | src/core/chain/witness_schedule.cpp:84-154 | hence in every run of updates without a reset, every keyed witness not among the elected, with votes or without, is chosen within its rank at the start |
| WitnessRounds.VotedWitnessIsChosen | src/core/chain/witness_schedule.cpp:84-154 | and through any resets, every keyed witness with a vote that is not among the elected is chosen within a bound fixed at the start |
| VoteShares.LapIsShare | src/core/chain/witness_schedule.cpp:137 | a lap is the lap length divided by the votes plus one, rounded down |
| VoteShares.TurnsMoveTime | src/core/chain/witness_schedule.cpp:108-148 | over a run without reset a scheduled time moves by exactly the laps of the turns taken plus how late each was |
| VoteShares.Shares | src/core/chain/witness_schedule.cpp:108-148 | with one slot, two witnesses that are not voted in never come further apart than one lap |
| VoteShares.SharesOfLaps | src/core/chain/witness_schedule.cpp:108-148 | hence from a start within a lap, what two of them have covered differs by at most one lap of each |
| VoteShares.SharesOfVotes | src/core/chain/witness_schedule.cpp:137 | then their turns are in proportion to their votes plus one, up to one turn each and the rounding of laps |
| VoteShares.VotesBuyTurns | src/core/chain/witness_schedule.cpp:84-154 | in every run of updates of the witness objects without a reset, under the usual limit, two keyed witnesses that are not elected stay level up to a lap |
| VoteShares.EnoughSlots | src/core/chain/witness_schedule.cpp:108-131 | with a slot for everyone waiting, each has a turn in every round whatever the votes |
| VoteShares.SharedSlots | src/core/chain/witness_schedule.cpp:108-131 | for every number of slots above one, a run without reset in which four times the votes buy no more turns |
| VoteShares.ProportionalIffOneSlot | src/core/chain/witness_schedule.cpp:84-154 | turns are in proportion to votes in all runs without reset if and only if there is one slot |
| VoteShares.OneSlotLeft | src/core/chain/witness_schedule.cpp:90-113 | with 20 voted witnesses at most, there is exactly one slot whenever somebody waits for it |
| VoteShares.UpdateKeepsFormula | src/core/chain/include/steem/chain/witness_objects.hpp:97-118 | an update keeps scheduled time, last update, position and votes in the documented relation, with the code's lap length and votes plus one, and puts every processed witness onto it |
| WitnessOutcomes.NextByParts | src/core/chain/witness_schedule.cpp:90-154 | marking the chosen witnesses first does not influence times or overflow |
| WitnessOutcomes.MediansExact | src/core/chain/witness_schedule.cpp:30-73 | the four stored values are the medians of the scheduled witnesses' properties, though each sort starts from the previous one |
| WitnessOutcomes.NextSlotsSound | src/core/chain/witness_schedule.cpp:226-259 | for any generator the slots hold a permutation of the chosen names followed by empty names |
| WitnessOutcomes.ScheduleSound | src/core/chain/witness_schedule.cpp:226-259 | the scheduled names are distinct and each belongs to a chosen witness |
| WitnessOutcomes.PayFollowsKinds | src/core/chain/witness_schedule.cpp:239-241 | the pay normalisation factor is the sum of the weights by the kinds the update itself recorded |
| WitnessOutcomes.NextSchedule | src/core/chain/witness_schedule.cpp:226-266 | the new schedule fits, and all its names can be looked up if and only if somebody has a key |
| WitnessScheduler.TakeMedians | src/core/chain/witness_schedule.cpp:41-65 | four sorts in a row yield the specified medians |
| WitnessScheduler.WitnessSchedule.constructor | src/core/chain/include/steem/chain/witness_objects.hpp:167-179 | a new schedule: one witness, and the documented limits and weights |
| WitnessScheduler.WitnessSchedule.SelectVoted | src/core/chain/witness_schedule.cpp:90-106 | the loop elects the first keyed witnesses in vote order and marks exactly those |
| WitnessScheduler.WitnessSchedule.SelectTimeshare | src/core/chain/witness_schedule.cpp:108-131 | the loop processes, chooses and marks exactly the specified witnesses and finds the new time |
| WitnessScheduler.WitnessSchedule.ResetVirtualTime | src/core/chain/witness_schedule.cpp:10-28 | time zero, and every witness one lap from it |
| WitnessScheduler.WitnessSchedule.AdvanceTimes | src/core/chain/witness_schedule.cpp:133-154 | if any sum overflows everything is reset as if nothing had been updated; otherwise exactly the processed witnesses move on |
| WitnessScheduler.WitnessSchedule.Choose | src/core/chain/witness_schedule.cpp:90-154 | selection and times together give the specified next witnesses and time |
| WitnessScheduler.WitnessSchedule.FillSlots | src/core/chain/witness_schedule.cpp:228-236 | the names, padded with empty ones |
| WitnessScheduler.WitnessSchedule.ShuffleSlots | src/core/chain/witness_schedule.cpp:243-259 | the in-place swaps are the specified shuffle |
| WitnessScheduler.WitnessSchedule.FetchScheduled | src/core/chain/witness_schedule.cpp:34-39 | the scheduled witnesses in order; fails exactly when a name is unknown |
| WitnessScheduler.WitnessSchedule.TallyVotes | src/core/chain/witness_schedule.cpp:156-222 | the version and the next hardfork that the previous schedule's votes make |
| WitnessScheduler.WitnessSchedule.WriteSchedule | src/core/chain/witness_schedule.cpp:226-259 | shuffled slots, number in use and pay factor |
| WitnessScheduler.WitnessSchedule.Reschedule | src/core/chain/witness_schedule.cpp:90-264 | the new witnesses, time, slots and pay factor, a valid state, and when the new names can be looked up |
| WitnessScheduler.WitnessSchedule.Rotate | src/core/chain/witness_schedule.cpp:84-264 | the whole new board of an update before medians; the votes counted are those of the old schedule; fails exactly when that schedule names an unknown witness |
| WitnessScheduler.WitnessSchedule.UpdateMedians | src/core/chain/witness_schedule.cpp:30-82 | stores the medians, copies two of them to the global properties, and fails exactly when a scheduled name is unknown |
| WitnessScheduler.WitnessSchedule.Update | src/core/chain/witness_schedule.cpp:84-267 | succeeds exactly when the old names are known and somebody has a key; then witnesses, time, slots, number in use, pay factor, version and hardfork are the specified ones, the state is valid, and the medians are those of the new schedule |
| ForkState.PushKeeps | src/core/chain/fork_database.cpp:35-71 | pushing keeps the invariant: the head has the greatest height and was seen first among equals, links lead to indexed parents one lower |
| ForkState.PushExact | src/core/chain/fork_database.cpp:51-71 | when exactly a push is refused as too old, as unlinkable or for a parent marked invalid, in terms of head, size, index and marks |
| ForkState.AcceptedBlock | src/core/chain/fork_database.cpp:51-71 | an accepted block is within the size of the head, indexed and linked to the parent it names; nothing else changes, and it is the head exactly when it is higher |
| ForkState.RunSafe | src/core/chain/fork_database.cpp:24-123 | the invariant holds after every run of pushes and size changes |
| ForkState.StartsSafe | src/core/chain/fork_database.cpp:24-29 | an empty or freshly started database satisfies it |
| ForkState.PruneExact | src/core/chain/fork_database.cpp:94-123 | pruning keeps exactly the blocks at or above the bound, the head among them, and exactly the links between them |
| ForkState.ParentHeight | src/core/chain/fork_database.cpp:51-71 | along a live link the height falls by exactly one |
| ForkDatabases.ChainAt | src/core/chain/fork_database.cpp:168-210 | the k-th item of a chain is k lower and its own chain is the rest |
| ForkSwitches.SwitchExact | src/core/chain/fork_database.cpp:168-210 | one pair of branches switches exactly if and only if their ends have the same live link |
| ForkSwitches.SwitchesIffSiblings | src/core/chain/fork_database.cpp:168-210 | in a database, for all pairs of blocks dropping the first branch and putting the second on the rest gives the second chain, if and only if blocks with the same previous block are linked alike |
| ForkSwitches.PushRooted | src/core/chain/fork_database.cpp:51-71 | a push that starts no second tree keeps every block linked or on the lowest level |
| ForkSwitches.PruneRooted | src/core/chain/fork_database.cpp:94-123 | so does pruning |
| ForkSwitches.RunSwitches | src/core/chain/fork_database.cpp:24-210 | hence after every run from an empty or started database that starts no second tree, all pairs of blocks switch exactly |
| ForkSwitches.StartedBlockFails | src/core/chain/fork_database.cpp:24-71 | a database started at a block whose parent arrives later: the branches to its sibling are returned, and the switch fails |
| ForkSwitches.PrunedParentFails | src/core/chain/fork_database.cpp:51-123 | a parent pruned and pushed again: its old child keeps the dead link, and the switch to a new child fails |
| ForkDatabases.ForkDatabase.constructor | src/core/chain/fork_database.cpp:7-9 | an empty database |
| ForkDatabases.ForkDatabase.StartBlock | src/core/chain/fork_database.cpp:24-29 | the block becomes the head and is indexed unless its id is, whatever the database held |
| ForkDatabases.ForkDatabase.PushBlock | src/core/chain/fork_database.cpp:35-71 | the specified push; nothing changes on failure |
| ForkDatabases.ForkDatabase.SetMaximum | src/core/chain/fork_database.cpp:94-123 | the erase loop prunes as specified, invalid marks going with their items |
| ForkDatabases.ForkDatabase.FetchBranchFrom | src/core/chain/fork_database.cpp:168-210 | returns exactly when both blocks are known and their chains have blocks with a common previous; then both branches are chain prefixes ending at the highest such pair |
| ForkDatabases.ForkDatabase.Converge | src/core/chain/fork_database.cpp:195-208 | the joint climb finds the highest pair with the same previous block, or none |
| ForkDatabases.ForkDatabase.WalkMainBranchToNum | src/core/chain/fork_database.cpp:212-221 | the block of the head's chain with that number, or nothing exactly when the chain has none |
| ForkDatabases.ForkDatabase.FetchBlockOnMainBranchByNumber | src/core/chain/fork_database.cpp:223-231 | agrees with the walk whenever the main branch reaches the number; otherwise it answers exactly when a single block has that number |
| SyncState.MergeKeepsConsecutive | src/base/net/node.cpp:2600-2683 | append, fork-switch pop-back and already-seen pop-front all keep block numbers consecutive, and the assertion before joining holds |
| SyncState.FetchKeeps | src/base/net/node.cpp:1043-1091 | sending any valid plan keeps requests exclusive and registered |
| SyncState.StepKeeps | src/base/net/node.cpp:1029-3637 | every handler step keeps the invariant |
| SyncState.RunSafe | src/base/net/node.cpp:1029-3637 | in every state of every run no block is outstanding at two live peers, every outstanding block is registered, and every list is consecutive |
| SyncState.ExclusiveAloneNotInductive | src/base/net/node.cpp:1043-1091 | exclusiveness alone is not kept by a step |
| SyncState.RegisteredAloneNotInductive | src/base/net/node.cpp:3625-3637 | registration alone is not kept by a step |
| SyncLifecycles.InventoryRefused | src/base/net/node.cpp:2483-2600 | an unasked reply changes nothing, one that is not sequential or does not build on the synopsis only disconnects the peer, and one with nothing to offer ends syncing from it |
| SyncLifecycles.InventoryTaken | src/base/net/node.cpp:2600-2771 | the new list of any other reply: replaced from the last place of the first announced id on, or entirely but for that id, or on an empty list the reply without the ids at its front that the node has; besides, only the count, the pending request and, for an implausible reply, the connection change |
| SyncLifecycles.NothingAnnouncedIsLost | src/base/net/node.cpp:2600-2683 | every id behind the first of a reply is on the new list, unless the list was empty and the node has it |
| SyncLifecycles.OnlyIdlePeersAreAsked | src/base/net/node.cpp:1043-1091 | a peer that is asked had nothing left to deliver, and then owes exactly what is planned for it |
| SyncLifecycles.RegistryExact | src/base/net/node.cpp:1029-3637 | in every step a block is registered afterwards exactly if it is asked for, or was registered and neither arrives from the peer owing it nor loses that peer |
| SyncLifecycles.ReceivedExact | src/base/net/node.cpp:3325-3637 | in every step the backlog grows exactly by a block that arrives as requested, and shrinks exactly by one handed to the client |
| SyncLifecycles.OutstandingExact | src/base/net/node.cpp:1029-3637 | in every step a peer owes a block exactly if it is asked for it, or owed it and neither delivers nor denies it |
| SyncLifecycles.DenialExact | src/base/net/node.cpp:2875-2892 | a denial inhibits asking a peer that syncs from us, and disconnects any other |
| SyncLifecycles.UnrequestedBlock | src/base/net/node.cpp:3602-3680 | a block nobody asked the peer for disconnects it and changes nothing else |
| SyncLifecycles.RequestedIsAccounted | src/base/net/node.cpp:1029-3637 | over every run, a requested block is registered or in the backlog until it is handed to the client or the peer that owes it is lost |
| SyncLifecycles.DenialOrphans | src/base/net/node.cpp:2875-2892 | after a denial the block is registered but owed by nobody |
| SyncLifecycles.OrphanForever | src/base/net/node.cpp:1043-3637 | such a block stays so in every run, and no peer is asked for it again |
| SyncLifecycles.OrphanedIffDenied | src/base/net/node.cpp:1029-3637 | in every state of every run a registered block is owed by nobody if and only if its peer denied it |
| SyncLifecycles.LossFrees | src/base/net/node.cpp:3072-3077 | when the peer owing a block is lost, the block can be asked for again |
| SyncNodes.PlanRequests | src/base/net/node.cpp:1043-1091 | one pass asks every idle peer, only for blocks of its list that nobody has, no block twice and at most the maximum; each gets the first such blocks of its list, and all of them unless the peer is full |
| SyncNodes.SyncNode.constructor | src/base/net/node.cpp:1029-1041 | a node with no peers and no requests |
| SyncNodes.SyncNode.RequestItems | src/base/net/node.cpp:1029-1041 | the blocks become outstanding at the peer and registered |
| SyncNodes.SyncNode.FetchSyncItems | src/base/net/node.cpp:1043-1091 | an iteration is an enabled fetch step of the protocol, with a plan that asks all idle peers for all they can deliver as above, or nothing while suspended |
| SyncNodes.SyncNode.OnBlockMessage | src/base/net/node.cpp:3602-3680 | receipt of a block is the specified step |
| SyncNodes.SyncNode.OnItemNotAvailable | src/base/net/node.cpp:2859-2892 | a not-available reply is the specified step |
| SyncNodes.SyncNode.OnConnectionClosed | src/base/net/node.cpp:3072-3077 | closing gives back the peer's requests as specified |
| SyncNodes.SyncNode.StartSynchronizing | src/base/net/node.cpp:4004-4014 | a restart clears the peer's list as specified |
| SyncNodes.SyncNode.ProcessBacklogItem | src/base/net/node.cpp:3325-3404 | one received block is taken off the front of every list that starts with it, as specified |
| SyncNodes.SyncNode.OnInventoryMessage | src/base/net/node.cpp:2483-2771 | checks, alignment and merge of an inventory are the specified step, with every refusal |
| Synopses.NextLowHalves | src/base/net/node.cpp:2437-2447 | the 32-bit step halves what is left |
| Synopses.NextLowStuck | src/base/net/node.cpp:2437-2447 | the step stands still, so that the loop would not end, exactly for spans of at least 2^32 - 1 blocks |
| Synopses.CreateSynopsis | src/base/net/node.cpp:2400-2451 | the client's part followed by the specified tail; the range assertion fails exactly when the client's part starts beyond the announced ids; the exact number of loop rounds |
| Synopses.RoundsAreFew | src/base/net/node.cpp:2437-2447 | the loop runs for one round more than the logarithm of the span, rounds that add no id included |
| Synopses.TailEnds | src/base/net/node.cpp:2437-2447 | the tail ends exactly on the last announced id |
| Synopses.TailHalves | src/base/net/node.cpp:2437-2447 | round by round the distance from the end of the announced ids is halved; rounds beyond the list add nothing, every later one the id at its distance |
| Synopses.TailIncreases | src/base/net/node.cpp:2437-2447 | its numbers strictly increase and come from the announced ids |
| Synopses.TailIsShort | src/base/net/node.cpp:2437-2447 | its length is logarithmic in the span |
| BlockLogState.ReadAt | src/core/chain/block_log.cpp:252-265 | at its offset a block unpacks whole, and the word behind it is the offset |
| BlockLogState.IndexAt | src/core/chain/block_log.cpp:302-316 | the i-th index word is the offset of block i |
| BlockLogState.LastWord | src/core/chain/block_log.cpp:318-337 | the last word of the log is the offset of the last block |
| BlockLogState.SamePositions | src/core/chain/block_log.cpp:137-184 | the last positions of log and index agree exactly when both hold equally many blocks |
| BlockLogs.BlockLog.ReadBlock | src/core/chain/block_log.cpp:252-265 | the block at an offset and the position behind its record |
| BlockLogs.BlockLog.ReadHead | src/core/chain/block_log.cpp:318-337 | the last appended block |
| BlockLogs.BlockLog.ConstructIndex | src/core/chain/block_log.cpp:351-379 | the rebuilt index is complete, except that a log of one block gets an empty one |
| BlockLogs.BlockLog.Open | src/core/chain/block_log.cpp:104-185 | for any two prefixes of one history, open leaves exactly the offsets of the log's blocks, except for one block and an index of other than one entry |
| BlockLogs.BlockLog.Append | src/core/chain/block_log.cpp:197-225 | with a complete index, appends exactly the block whose number follows and stays complete; a refusal changes nothing; after the exception exactly a block numbered one is accepted, and written behind the first |
| BlockLogs.BlockLog.GetBlockPos | src/core/chain/block_log.cpp:302-316 | the offset of each block in range, npos out of range, a throw after the exception |
| BlockLogs.BlockLog.ReadBlockByNum | src/core/chain/block_log.cpp:267-288 | the n-th appended block for 1 to k and nothing otherwise; a throw after the exception |
| UInt128s.ShiftLeftHalves | src/base/fc/uint128.cpp:154-187 | masking and or-ing the halves is multiplication by a power of two modulo 2^128 |
| UInt128s.ShiftRightHalves | src/base/fc/uint128.cpp:189-222 | masking and or-ing the halves is division by a power of two |
| UInt128s.UInt128.AddAssign | src/base/fc/include/fc/uint128.hpp:39-60 | addition modulo 2^128, also of the object to itself |
| UInt128s.UInt128.SubAssign | src/base/fc/include/fc/uint128.hpp:39-60 | subtraction modulo 2^128 |
| UInt128s.UInt128.OrAssign | src/base/fc/include/fc/uint128.hpp:39-60 | bitwise or of the whole numbers |
| UInt128s.UInt128.ShiftLeft | src/base/fc/uint128.cpp:154-187 | multiplication by a power of two modulo 2^128, for every shift |
| UInt128s.UInt128.ShiftRight | src/base/fc/uint128.cpp:189-222 | division by a power of two, for every shift |
| UInt128s.LimbProduct | src/base/fc/uint128.cpp:257-295 | the six omitted partial products do not matter modulo 2^128 |
| UInt128s.MulAssign | src/base/fc/uint128.cpp:257-295 | the product modulo 2^128, also of the object with itself |
| UInt128s.Schoolbook | src/base/fc/uint128.cpp:297-349 | four word products with their column weights make up the product |
| UInt128s.FullProduct | src/base/fc/uint128.cpp:297-349 | the exact 256-bit product for all inputs, whichever inputs the results overwrite |
| Decimals.Peel | src/base/fc/uint128.cpp:32-40 | the second loop leaves quotient and remainder |
| Decimals.Divide | src/base/fc/uint128.cpp:13-45 | quotient and remainder for every divisor but zero, with any aliasing of operands and results; nothing changes on division by zero |
| Decimals.DigitsFit | src/base/fc/uint128.cpp:131-151 | 39 digits suffice, so the buffer does |
| Decimals.ToString | src/base/fc/uint128.cpp:131-151 | the decimal form, whatever the static buffer held |
| Decimals.FromString | src/base/fc/uint128.cpp:47-117 | the specified parse with sign and radix prefixes, modulo 2^128 |
| Decimals.RoundTrip | src/base/fc/uint128.cpp:47-151 | parsing the printed form of any 128-bit number gives it back, zero included |
| Decimals.PrintAndParse | src/base/fc/uint128.cpp:47-151 | the same through the two imperative operations |
| NumberTexts.ReadsDecimal | src/base/fc/uint128.cpp:47-117 | decimal digits that do not start with 0 read as their place value modulo 2^128 up to the first other character, and behind a minus sign as its complement |
| NumberTexts.ReadsHexadecimal | src/base/fc/uint128.cpp:47-117 | so do hexadecimal digits of either case behind 0x |
| NumberTexts.ReadsOctal | src/base/fc/uint128.cpp:47-117 | so do octal digits behind any other 0 |
| NumberTexts.ReadsNothing | src/base/fc/uint128.cpp:47-117 | a text that starts with neither digit nor minus sign reads as zero |
| NumberTexts.HexadecimalRoundTrip | src/base/fc/uint128.cpp:47-117 | the hexadecimal digits of any 128-bit number behind 0x give it back, and behind a minus sign its complement |
| NumberTexts.OctalRoundTrip | src/base/fc/uint128.cpp:47-117 | so do the octal digits behind 0 |
| NumberTexts.NegativeDecimal | src/base/fc/uint128.cpp:47-151 | the printed form behind a minus sign gives the complement |
| MerkleRoot.SplitIsPower | src/core/protocol/block.cpp:42-67 | the reference tree splits at the largest power of two below the number of leaves |
| MerkleRoot.LevelKeepsRoot | src/core/protocol/block.cpp:42-67 | a bottom-up round with odd-element promotion leaves the top-down root unchanged |
| MerkleRoot.HashPairs | src/core/protocol/block.cpp:54-61 | the in-place pairing never overwrites an unread hash |
| MerkleRoot.CalculateMerkleRoot | src/core/protocol/block.cpp:42-67 | the loops compute the top-down root of section 2.1 of RFC 6962, without its prefixes |
| MerkleRoot.RootDetermines | src/core/protocol/block.cpp:42-67 | under an injective pair hash, equal roots of equally long lists mean equal lists |
| MerkleRoot.ChecksumDetermines | src/core/protocol/block.cpp:42-67 | equal checksums of equally many transactions mean equal transactions, under injective hashes |
| Prices.OrderOfRationals | src/core/protocol/asset.cpp:270-290 | between positive prices of the same symbols every operator is the order of the rationals |
| Prices.StrictWeakOrder | src/core/protocol/asset.cpp:270-290 | over positive prices of any symbols the operators are consistent and form a strict weak order |
| Prices.OrderOfSymbols | src/core/protocol/asset.cpp:270-290 | prices of different symbols are ordered by base symbol, and by quote symbol between equal ones, whatever their amounts |
| Prices.ConvertExact | src/core/protocol/asset.cpp:292-309 | for all amounts and prices: refused unless the divisor is positive, and for a negative product; otherwise the quotient rounded down when it fits 63 bits, one of 64 bits as a negative amount, a larger one refused |
| Prices.MultiplySymbols | src/core/protocol/asset.cpp:292-309 | an amount of a third symbol is refused; the base symbol converts to quote and otherwise the quote symbol to base, with the symbol of the result |
| Prices.ExtendedProduct | src/core/protocol/asset.cpp:292-309 | the 128-bit product of sign-extended amounts is the sign-extended product |
| Prices.LargerPriceConvertsToMore | src/core/protocol/asset.cpp:270-309 | a larger price never converts quote to less base |
| Prices.ConversionNeverGains | src/core/protocol/asset.cpp:292-309 | there and back never creates value and loses less than base/quote + 1 |

## Left out

- WitnessScheduler.WitnessSchedule.Update: counts the votes before the choice, which reads and writes other fields.
- RequiredSignatures.RequiredSignaturesSuffice: mixed owner and active authorities beyond the limits have the counterexample only; there the order of the checks decides.
- RequiredSignatures.Verify: pre-approved account sets and throwing authority getters are not modelled.
- SignStates.SignState.CheckAuthority: the optional depth and account count of the overload are at their defaults; CheckAuthorityImpl covers the others.
- SyncNodes.SyncNode.ProcessBacklogItem: the set of items being processed is not modelled.
- SyncNodes.SyncNode.OnInventoryMessage: the last seen block and the follow-up request for ids are not modelled.
- VoteShares.VotesBuyTurns: the law of shares is stated without resets; across a reset every scheduled time starts over.
- VirtualTime.EveryVoteCounts: votes and keys are fixed over the run; the code that moves scheduled times when a vote changes is not part of this model.
- BlockLogs.BlockLog.Append: file positions stay below 2^64 - 1 and block numbers below 2^32 - 1.
- Synopses.CreateSynopsis: announced block numbers stay below 2^32 - 1 and the span below 2^32 - 1, where the 32-bit step works; the client's part is given.
- Prices.OrderOfRationals: prices with a zero or negative side have no ordering law.
- Interleavings inside a message handler, inactivity timeouts and all of the network's input and output.
- Signature recovery, hashing, serialisation and the chain database with its undo sessions.
- Torn or partial file writes, stream modes and locking of the block log.
- The unlinked-block cache, pop_block, set_head and remove of the fork database.
- Division through the big-integer library, popcount and the conversions to variants of 128-bit numbers.
- Parsing and printing of assets and symbols.
- Wallet, remote interfaces, plugins and command-line programs.
