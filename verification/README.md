# A verified model of the BMChain node

BMChain is a delegated-proof-of-stake node of the Steem/Graphene family. This
project models its consensus state machine, its ledger, its witness scheduling,
its storage and its block-sync protocol in Dafny, and proves what those parts
promise to each other.

`dafny verify dfyconfig.toml` checks everything.

| area | modules | main results |
|---|---|---|
| witness voting through proxies | `WeightedSums`, `ProxyForest`, `VirtualTime`, `VotingState`, `VotingInvariant`, `VotingPreservation`, `VotingRuns`, `VotingMeaning`, `VotingMachine`, `VotingDatabase` | every run keeps the proxies a forest, every `proxied_vsf_votes` entry the vesting held at exactly that proxy distance, every tally the summed weight of its voters; each operation changes exactly the proxies, rights and records it names; all vesting is counted once, so the assertion on a witness's votes never fires |
| fork choice | `ForkDatabase`, `ChainDatabase`, `ForkSwitching` | branch search finds the lowest common ancestor; after every `push_block` the state is the replay of the applied chain; every outcome of a push occurs exactly under its condition, a switch ends on the new branch, a failed switch restores chain and state exactly when irreversibility and forgetting allow it, and blocks that failed are not kept |
| scheduling | `WitnessSchedule`, `Slots` | rounds are duplicate-free, chosen by votes and then by virtual time, and shuffled by a permutation; virtual time keeps its order in 128-bit arithmetic and gives each witness the time its votes entitle it to; slots follow time |
| ledger | `Ledger`, `LedgerRuns`, `LedgerMeaning`, `Escrow`, `Rewards`, `RewardMeaning`, `CommentCashout`, `Curation` | the equations of `validate_invariants` hold over every run, up to a gap that only the re-pricing of open content orders opens; rewards and escrows conserve every unit; for every operation, who pays whom and how much is stated account by account |
| chain bookkeeping | `Sequences`, `Widths`, `Quotients`, `TransactionDedupe`, `BlockIdLookup` | no transaction is applied twice; every block number is resolved to the right id |
| sync and storage | `Synopsis`, `BlockSync`, `MessageFraming`, `BlockLog` | the two halves of a synopsis join seamlessly; an honest reply passes the requester's checks; frames and log entries read back as written |

The evaluators and database functions that only compute a new state (for
example `VotingState.SetProxy`, `Ledger.Apply`, `Escrow.Release`) are functions
from the old state; code that works in place or in loops (the database walks,
fork switching, cashout, the schedule, the log, the peer) is a class or a method
with loops, proved against those functions or against its property.

## Assumptions

- An account's voting weight is its own vesting shares plus all its proxied
  shares; a block id contains its block's number and ids do not collide;
  unpacking undoes packing; the message header is eight bytes.
- The reward curve is monotone, fits 64 bits for curation weights and is positive
  on positive input; a price turns an amount that is not negative into one that
  is not negative, and otherwise its rounding is arbitrary.
- The indices by votes and by scheduled time list all witnesses in that order.
- What a block does to the state is a deterministic partial function of the state;
  the copy to the block log and the fork database's part in it are modelled. A
  block applies only to its predecessor's state, and one that fails by its state
  has not made itself irreversible.

## Results that are not what one would expect

- Re-pricing an open content order pays the difference in the wrong direction
  (`bmchain_evaluator.cpp:2226`): what is held drifts from `current_supply` by
  twice the change of price. `LedgerRuns.RepriceBreaks` is a concrete ledger,
  `LedgerRuns.RepriceBalancedIff` and `LedgerRuns.RunBalancedIff` are the exact
  conditions.
- Vesting that is taken away without adjusting votes (the null-account sweep and
  the initial burn) keeps the voting invariant exactly when nothing is taken or
  the account neither has a proxy nor votes: `VotingMachine.BurnKeepsInvIff`, with
  `VotingMachine.BurnBreaksProxied` and `VotingMachine.BurnBreaksVoter` as instances.
- The absolute slot is the number of intervals since genesis exactly under the
  condition of `Slots.SlotIsElapsedIff`; the main network's genesis time is not a
  multiple of the interval, and `Slots.MainNetworkIsOneAhead` shows the absolute slot
  one ahead.
- `construct_index` leaves the index of a one-block log empty:
  `BlockLog.Log.ConstructIndex`.
- The ids that a node still wants from a peer follow on the last block it has
  seen exactly when an answer that is kept whole starts there:
  `BlockSync.MergeKeepsAligned` is the condition, `BlockSync.MergeMisaligns` an
  answer that fails it.
- The check for an implausible number of offered blocks computes in 32-bit
  seconds: `BlockSync.WrappedCountPasses` has a number that is found out and a
  larger one that is not.
- `fetch_block_on_main_branch_by_number` returns the only block of a number
  without asking whether it is on the main branch:
  `ForkDatabase.ForkDb.FetchOnMainBranch` has the exact condition and
  `ForkDatabase.OffBranchBlock` a run that ends there.
- A failed switch is taken back only while the fork database remembers enough:
  `ChainDatabase.Chain.Recover` has the exact condition, and when the new head is
  more than one above the old one the attempt itself can make it forget
  (`ForkSwitching.LongSwitchForgets`).
- A block of the new fork can fail although it applies to the state: what it makes
  irreversible is copied to the log from the fork database, whose head has been
  popped. `ForkDatabase.CopyCompletesIff` is the exact condition,
  `ForkDatabase.CopyFails` and `ForkSwitching.LogStopsSwitch` an instance.
- A switch to a fork that parts below the oldest state that can be gone back to
  loses every block above that state: `PopFailed(false)` in
  `ChainDatabase.Chain.SwitchFork`.
- An honest answer to a synopsis that ends in the null id for the responder is
  turned down by the requester unless block 1 is an entry:
  `BlockSync.HonestAnswer`, with `BlockSync.NullSynopsisTurnedDown` as an instance.
  The synopsis builder never writes the null id (`BlockSync.AnswerToSynopsis`).
- A comment that allows no curation rewards leaves the curators' part of its
  reward in the fund: `Rewards.Claimed` and `Rewards.AwardsAddUp`.

## Model

| member | source | states |
|---|---|---|
| ProxyForest.NeverTwice | libraries/chain/bmchain_evaluator.cpp:1155-1166 | in a loop-free proxy relation a chain never meets the same account again, at any distance |
| ProxyForest.DistanceUnique | libraries/chain/database.cpp:1164-1193 | an account has one proxy distance to another, so no shares can sit at two depths |
| ProxyForest.CutBelowAncestor | libraries/chain/bmchain_evaluator.cpp:1146-1151 | cutting an account loose takes from an ancestor at distance m exactly what stood k-m below the account |
| ProxyForest.LinkAcyclic | libraries/chain/bmchain_evaluator.cpp:1155-1173 | a new link closes no loop if the proxy's own chain avoids the account |
| ProxyForest.OneLevelUp | libraries/chain/database.cpp:3306-3319 | what is k below proxied accounts is exactly what is k+1 below some account |
| ProxyForest.EveryWeightCountedOnce | libraries/chain/database.cpp:3306-3319 | for chains of any length and any cut-off, roots up to the cut-off plus proxied accounts at it count every weight exactly once |
| VotingPreservation.PushUpAt | libraries/chain/database.cpp:1164-1193 | the ancestor at distance m receives the delta shifted by its distance, exactly once |
| VotingPreservation.PushUpOther | libraries/chain/database.cpp:1164-1193 | an account not met within the depth limit is untouched by the walk |
| VotingPreservation.RootFound | libraries/chain/database.cpp:1168-1192 | the walk ends at the account that votes, or the chain is longer than the depth limit |
| VotingPreservation.TallyAfterPush | libraries/chain/database.cpp:1164-1227 | the summed weight of any unproxied voters moves by what reaches the root, if the root is one of them |
| VotingPreservation.DetachAccounts | libraries/chain/bmchain_evaluator.cpp:1146-1151 | withdrawing an account's shares and cutting its proxy leaves every proxied count the true one |
| VotingPreservation.AttachAccounts | libraries/chain/bmchain_evaluator.cpp:1168-1177 | linking an account and passing its shares up leaves a forest with true proxied counts |
| VotingPreservation.GrowAccounts | libraries/chain/database.cpp:1195-1216 | new vesting passed up with the one-number form leaves every proxied count the true one |
| VotingInvariant.VestingCountedOnce | libraries/chain/database.cpp:3306-3319 | total vesting is the sum of full weights of unproxied accounts and of the last proxied entry of proxied ones |
| VotingInvariant.VotersWithinTotal | libraries/chain/database.cpp:3301-3304 | however unproxied voters are chosen, they weigh together at most all vesting shares |
| VotingRuns.CheckChainMeaning | libraries/chain/bmchain_evaluator.cpp:1155-1166 | the loop check passes if and only if the chain ends within the room left and avoids what has been met |
| VotingRuns.ProxyAccepted | libraries/chain/bmchain_evaluator.cpp:1155-1166 | a proxy is accepted if and only if at most two proxies stand above it and the account is none of them |
| VotingRuns.DetachKeepsInv | libraries/chain/bmchain_evaluator.cpp:1146-1151 | withdrawing an account from its proxies or witnesses never fails and keeps the whole invariant |
| VotingRuns.AttachKeepsInv | libraries/chain/bmchain_evaluator.cpp:1168-1177 | giving an account to a proxy that it is not above never fails and keeps the whole invariant |
| VotingRuns.SetProxyKeepsInv | libraries/chain/bmchain_evaluator.cpp:1139-1183 | setting or clearing a proxy succeeds if and only if the listed conditions hold, never trips the votes assertion, and keeps the invariant |
| VotingRuns.VoteWitnessKeepsInv | libraries/chain/bmchain_evaluator.cpp:1185-1223 | approving or rejecting a witness keeps the invariant and never trips the votes assertion |
| VotingRuns.AddVestingKeepsInv | libraries/chain/database.cpp:1088-1140 | creating vesting shares keeps the invariant and never trips the votes assertion |
| VotingRuns.DeclineKeepsInv | libraries/chain/database.cpp:2007-2034 | declining voting rights keeps the invariant and never trips the votes assertion |
| VotingMeaning.SetProxyMeans | libraries/chain/bmchain_evaluator.cpp:1139-1183 | after setting or clearing, for every account and either way, the proxy is exactly the one asked for; every other proxy, all vesting, rights and totals are as before; the vote records are the old ones, without those of the account when a proxy is set |
| VotingMeaning.VoteMeans | libraries/chain/bmchain_evaluator.cpp:1185-1223 | a vote adds, and its withdrawal removes, exactly one record, one on the counter and the whole weight of the voter on one witness; nothing else changes |
| VotingMeaning.VoteAcceptedIff | libraries/chain/bmchain_evaluator.cpp:1185-1223 | a vote is accepted if and only if account and witness exist, there is no proxy, and for a new vote the right, a free place and no record, for a withdrawal the record |
| VotingMeaning.AddVestingMeans | libraries/chain/database.cpp:1088-1140 | new shares raise one account and the total by the amount, are refused exactly for an unknown account or an overflow, and change no proxy, right or record |
| VotingMeaning.DeclineMeans | libraries/chain/database.cpp:2007-2034 | a declined account has no right to vote, no proxy and no records left; everybody else keeps theirs |
| VotingMeaning.AdjustFrame | libraries/chain/database.cpp:1164-1227 | passing shares up touches nothing but proxied counts and witnesses |
| VotingMeaning.VotersWitnessesMove | libraries/chain/database.cpp:1218-1249 | exactly the witnesses an account votes for move, each by the delta and to the time its new votes give; refused exactly when one would exceed all shares |
| VotingMeaning.BurnMeans | libraries/chain/database.cpp:3230-3240 | burnt shares change nothing but their owner and the total |
| VotingMeaning.NewObjectsMean | libraries/chain/bmchain_evaluator.cpp:75-178 | new accounts may vote and hold nothing; new witnesses have no votes and are due at the end of time |
| VotingMachine.BurnKeepsInvIff | libraries/chain/database.cpp:3230-3240 | taking vesting without adjusting votes keeps the invariant if and only if nothing is taken or the account has neither proxy nor votes |
| VotingMachine.BurnBreaksProxied | libraries/chain/database.cpp:1287-1303 | two named accounts, one proxying to the other: burning five of its ten shares breaks the invariant |
| VotingMachine.BurnBreaksVoter | libraries/chain/database.cpp:1287-1303 | the same for an account that votes for a witness |
| VotingMachine.AddAccountKeepsInv | libraries/chain/bmchain_evaluator.cpp:104-178 | a new account keeps the invariant |
| VotingMachine.AddWitnessKeepsInv | libraries/chain/bmchain_evaluator.cpp:75-102 | a new witness keeps the invariant |
| VotingMachine.RescheduleKeepsInv | libraries/chain/witness_schedule.cpp:124-171 | a new round of virtual times keeps the voting invariant |
| VotingMachine.StepKeepsInv | libraries/chain/database.cpp:1164-1265 | every operation of the voting machine keeps the invariant, whether accepted or refused |
| VotingMachine.RunsKeepInv | libraries/chain/database.cpp:1164-1265 | over every run the invariant holds and every witness's votes lie between zero and all vesting shares |
| VotingMachine.GenesisInv | libraries/chain/database.cpp:2336-2348 | the empty state satisfies the invariant |
| VotingMachine.GenesisIsRun | libraries/chain/database.cpp:2250-2348 | any accounts, witnesses and shares that the chain starts with are reached by steps from the empty state, so the invariant holds of them |
| VotingMachine.TimeMovesForward | libraries/chain/witness_schedule.cpp:124-171 | `current_virtual_time` stays or grows at every step, except that a round whose next lap overflows 128 bits sets it to zero |
| VotingMachine.NoShareOverflows | libraries/chain/database.cpp:1164-1216 | every stored count of shares lies between zero and all vesting shares, below the 64-bit limit |
| VotingDatabase.Database.AdjustVotesOf | libraries/chain/database.cpp:1218-1227 | the loop over an account's votes adjusts each voted witness once, or refuses if one refuses |
| VotingDatabase.Database.RaiseProxied | libraries/chain/database.cpp:1176-1182 | the descending loop adds the delta shifted by the depth to one account |
| VotingDatabase.Database.AdjustProxiedVotes | libraries/chain/database.cpp:1164-1193 | the recursive walk does what the specification's walk and root search do, from every depth |
| VotingDatabase.Database.AdjustOwnVotes | libraries/chain/database.cpp:1195-1216 | the one-number form is the array form with only own shares |
| VotingDatabase.Database.ClearVotesOf | libraries/chain/database.cpp:1251-1265 | exactly the records of one account go and its counter is zero |
| VotingDatabase.Database.RemovalDelta | libraries/chain/bmchain_evaluator.cpp:1146-1150 | the loop fills the delta with the negated own and proxied shares |
| VotingDatabase.Database.FindLoop | libraries/chain/bmchain_evaluator.cpp:1155-1166 | the `while` walk gives the verdict of the specified loop check |
| VotingDatabase.Database.ApplySetProxy | libraries/chain/bmchain_evaluator.cpp:1139-1183 | the in-place evaluator produces the specified state, whose proxies, rights, shares and records are stated field by field, keeps the invariant, and a refusal changes nothing |
| VotingDatabase.Database.ApplyVote | libraries/chain/bmchain_evaluator.cpp:1185-1223 | likewise for a witness vote: one record comes or goes |
| VotingDatabase.Database.ApplyVesting | libraries/chain/database.cpp:1088-1140 | likewise for new vesting shares: one account and the total grow |
| VotingDatabase.Database.ApplyDecline | libraries/chain/database.cpp:2007-2034 | likewise for a declined voting right: right, proxy and records go |
| VotingDatabase.Database.Retally | libraries/chain/database.cpp:3498-3529 | rebuilding all tallies from the vote records gives the tallies that the incremental updates kept |
| VirtualTime.AdjustVoteKeepsTimely | libraries/chain/database.cpp:1229-1249 | with wrapping 128-bit arithmetic a vote change keeps last update, now and scheduled time in order |
| VirtualTime.AdjustVoteMeans | libraries/chain/database.cpp:1229-1249 | the votes change by the delta, the position moves on at the old votes modulo 2^128, and the time scheduled is the one at which the rest of the lap is run at the new votes plus one, by both bounds of its rounding; the end of time exactly when that is beyond 128 bits |
| VirtualTime.MoreVotesEarlier | libraries/chain/database.cpp:1229-1249 | more votes never schedule a witness later |
| VirtualTime.LapMeans | libraries/chain/witness_schedule.cpp:149-171 | a lap lasts all of virtual time over the votes plus one, by both bounds; the wrap test is true exactly when the lap ends beyond 128 bits |
| VirtualTime.MoreVotesShorterLap | libraries/chain/witness_schedule.cpp:149-171 | more votes never make a lap longer |
| VirtualTime.LapsBegin | libraries/chain/witness_schedule.cpp:10-28 | a next lap begins at the given time and one from zero at zero, each with position zero and an end by the lap length |
| VirtualTime.LaterWitness | libraries/chain/witness_schedule.cpp:124-145 | a witness not looked at is scheduled no earlier than the last one looked at |
| VirtualTime.RescheduledTimely | libraries/chain/witness_schedule.cpp:124-171 | a round keeps every witness's times in order and moves time back only by a reset to zero after an overflow |
| VirtualTime.RescheduledMeans | libraries/chain/witness_schedule.cpp:124-171 | time moves to that of the last witness looked at; exactly the witnesses looked at begin their next lap there, or everybody begins at zero exactly when one of their laps would end beyond 128 bits |
| WitnessSchedule.SelectElected | libraries/chain/witness_schedule.cpp:73-87 | the loop takes the first witnesses by votes that can sign, stopping only at the limit or the end |
| WitnessSchedule.SelectTimeshare | libraries/chain/witness_schedule.cpp:124-145 | the loop fills up with witnesses by scheduled time that can sign and are not elected, and looks at exactly the witnesses reached while a seat was free |
| WitnessSchedule.AdvanceTimes | libraries/chain/witness_schedule.cpp:149-171 | every processed witness starts its next lap, or all start from zero when a lap overflows |
| WitnessSchedule.ResetAll | libraries/chain/witness_schedule.cpp:10-28 | every witness starts from zero with its own lap length |
| WitnessSchedule.RoundIsGood | libraries/chain/witness_schedule.cpp:67-147 | a round is duplicate-free, all have signing keys, nobody left out has more votes than an elected or an earlier time than a timeshare witness, and only a full house leaves anyone out |
| WitnessSchedule.Shuffle | libraries/chain/witness_schedule.cpp:258-275 | the in-place loop makes exactly the swaps that the 64-bit mixer picks |
| WitnessSchedule.SwapsRearrange | libraries/chain/witness_schedule.cpp:258-275 | whatever is picked, the first n entries are permuted and no other is touched |
| WitnessSchedule.PickMeans | libraries/chain/witness_schedule.cpp:262-273 | each step takes its entry from those not yet placed, by the remainder of the mixed word |
| WitnessSchedule.PickStays | libraries/chain/witness_schedule.cpp:262-275 | an entry that has been placed is never moved again |
| WitnessSchedule.DifferentPicks | libraries/chain/witness_schedule.cpp:262-275 | different picks always give different orders, so every order of the round comes from exactly one sequence of picks |
| WitnessSchedule.MixInstances | libraries/chain/witness_schedule.cpp:264-270 | the values of the 64-bit mixer at two named inputs |
| WitnessSchedule.Schedule.Update | libraries/chain/witness_schedule.cpp:67-280 | the schedule is the shuffle of a good round with the rest blank, its entries are pairwise different, and exactly the witnesses looked at while a seat was free are rescheduled; a refusal changes nothing |
| ForkDatabase.ForkDb.Push | libraries/chain/fork_database.cpp:51-77 | a block is stored unless it is too old or unlinkable (both exactly), and the head moves only to a higher block |
| ForkDatabase.ForkDb.Pop | libraries/chain/fork_database.cpp:16-22 | the head steps back if and only if its predecessor is alive |
| ForkDatabase.ForkDb.SetMaxSize | libraries/chain/fork_database.cpp:94-123 | exactly the blocks below the floor are forgotten |
| ForkDatabase.ForkDb.FetchBranch | libraries/chain/fork_database.cpp:168-210 | terminates with two linked paths whose last blocks share a predecessor, and succeeds if and only if the index holds two ancestors of the tips with a common predecessor |
| ForkDatabase.BranchesUnique | libraries/chain/fork_database.cpp:168-210 | there is only one such pair of branches |
| ForkDatabase.BranchesShareOnlyLast | libraries/chain/fork_database.cpp:168-210 | the two branches have no block in common except possibly their last |
| ForkDatabase.CommonAncestor | libraries/chain/fork_database.cpp:168-210 | when the branches end in different blocks, every common ancestor is at or below the shared predecessor |
| ForkDatabase.SameEndMeansAncestor | libraries/chain/fork_database.cpp:168-210 | the branches end in the same block if and only if one tip is an ancestor of the other |
| ForkDatabase.ForkDb.WalkMainBranch | libraries/chain/fork_database.cpp:212-221 | the walk finds the block of that number below the head, or nothing if the number is higher or an ancestor is gone |
| ForkDatabase.ForkDb.FetchOnMainBranch | libraries/chain/fork_database.cpp:223-231 | the answer for no, one and several stored blocks of the number; it is off the main branch if and only if the number has one stored block and that is not the main branch's |
| ForkDatabase.OffBranchBlock | libraries/chain/fork_database.cpp:223-231 | a run of two pushes and a pop after which a block above the head is given as the main branch's |
| ForkDatabase.ForkDb.CopyToLog | libraries/chain/database.cpp:2936-2947 | the loop appends to the log exactly the blocks that the fork database gives for the next numbers, until one is missing |
| ForkDatabase.CopiedIff | libraries/chain/database.cpp:2936-2947 | the copy to the log completes if and only if every number asked for is given |
| ForkDatabase.HeadSupplies | libraries/chain/fork_database.cpp:212-231 | with its head on a stored chain, the fork database's main branch supplies that chain up to the head |
| ForkDatabase.CopyCompletesIff | libraries/chain/database.cpp:2936-2947 | with the head on a stored chain, the copy completes if and only if every number above the head has exactly one stored block |
| ForkDatabase.CopyFails | libraries/chain/database.cpp:2936-2947 | two named forks between which the copy of block 3 fails while a node switches |
| ChainDatabase.Chain.ReplayIsHistory | libraries/chain/database.cpp:543-625 | from every state of its history, replaying the blocks applied since gives the current state |
| ChainDatabase.Chain.Commit | libraries/chain/database.cpp:2916-2925 | committing forgets exactly the states at or below the revision |
| ChainDatabase.Chain.TrySucceedsIff | libraries/chain/database.cpp:2925-2948 | a block is applied if and only if it applies to the state and every block it makes irreversible is in the log or given for it |
| ChainDatabase.Chain.ApplyOne | libraries/chain/database.cpp:572-578 | one attempt, its copy to the log included: a failure leaves chain and state alone, and the oldest state, the log and the fork database change exactly as the attempt made blocks irreversible |
| ForkSwitching.LogStopsSwitch | libraries/chain/database.cpp:2925-2944 | during a switch between two named forks a block that applies to the state fails in the copy to the log, after it has made blocks above the fork point irreversible |
| ChainDatabase.Chain.PopBlock | libraries/chain/database.cpp:846-864 | one block is undone if and only if head and predecessor are known; the fork database's own head steps back too |
| ChainDatabase.Chain.PopTo | libraries/chain/database.cpp:563-565 | popping arrives if and only if the target is not too old, the popped blocks are known and the fork database can step back as often; when the target is too old it stops at the oldest state |
| ChainDatabase.Chain.ApplyBranch | libraries/chain/database.cpp:567-587 | exactly as many blocks as are applied in turn go on top, with exactly the effect of the attempts on what is irreversible, logged and forgotten |
| ChainDatabase.Chain.ReplayAgain | libraries/chain/database.cpp:594-600 | a branch that was applied before, whose irreversible part is in the log, goes through the same states again and makes nothing new irreversible |
| ChainDatabase.Chain.LibIsFromBlock | libraries/chain/database.cpp:2875-2925 | whatever became irreversible during an attempt was made so by one of the attempted blocks |
| ChainDatabase.Chain.Recover | libraries/chain/database.cpp:588-601 | chain and states come back if and only if nothing below became irreversible and the popped blocks and all predecessors needed below the fork are known, however long the new branch |
| ForkSwitching.OneHigherRecovers | libraries/chain/database.cpp:588-601 | with the new head one above the old one only the block where the forks part can be missing |
| ForkSwitching.LongSwitchForgets | libraries/chain/database.cpp:588-601 | with a new head three above the old one an attempt that stays reversible down to the fork point can still make recovery impossible |
| ChainDatabase.Chain.SwitchFork | libraries/chain/database.cpp:554-608 | each outcome by what was there before: lost branch, too old, switched if and only if every block of the branch is applied in turn (state and copy to the log), otherwise restored if and only if recovery has what it needs; and for each the resulting chain, log, oldest state, and exactly what the fork database still stores and where its head is: after a failure no block of the branch from the failed one on |
| ChainDatabase.Chain.PushBlock | libraries/chain/database.cpp:543-625 | after every outcome the state is the replay of the applied chain and irreversible blocks stay; refusal, extension, failure, ignoring and every switch outcome occur exactly under their conditions; a block that failed is no longer stored and nothing else was removed for it |
| Slots.SlotAtIsInverse | libraries/chain/database.cpp:935-966 | slot numbers and slot times are inverse: a time falls into the last slot that has begun |
| Slots.SlotTimesAre | libraries/chain/database.cpp:935-958 | slots are one interval apart, the first within one interval after the head block and on a multiple of the interval once there is a block |
| Slots.SlotsFollowTime | libraries/chain/database.cpp:2800-2843 | over every run of blocks the absolute slot moves exactly with the block time's interval, missed slots included |
| Slots.SlotIsElapsedIff | libraries/chain/database.cpp:2800-2843 | the absolute slot is the number of whole intervals since genesis if and only if first and last block stand alike to genesis, always for an aligned genesis |
| Slots.MainNetworkIsOneAhead | libraries/chain/database.cpp:935-958 | with the main network's genesis time the absolute slot runs one ahead after two blocks |
| Slots.EachWitnessOnce | libraries/chain/database.cpp:927-933 | under a fixed schedule of n different witnesses any n consecutive slots give each exactly one |
| Slots.ScheduleIsByTime | libraries/chain/database.cpp:927-966 | who is due at a time does not depend on which blocks came before it |
| Slots.ProducerOfBlock | libraries/chain/database.cpp:927-933 | the block produced at a time belongs to the entry of its own absolute slot modulo the length of the schedule |
| Slots.FirstThreeSlots | libraries/chain/database.cpp:927-933 | with three witnesses the first slots after genesis go to the second, the third and the first |
| BlockIdLookup.RingHolds | libraries/chain/database.cpp:2792-2798 | the ring still has the last 65536 blocks, and a younger block's id where an older one was |
| BlockIdLookup.RingIsOld | libraries/chain/database.cpp:2792-2798 | a ring slot holds an id of a number that has been applied |
| BlockIdLookup.Lookup.Apply | libraries/chain/database.cpp:2845-2948 | a block is accepted if and only if the undo history stays below its limit and the copy to the log completes; ring and log are those of the chain if and only if the copied blocks are the chain's, as they are when the fork database's main branch supplies them |
| BlockIdLookup.Lookup.Find | libraries/chain/database.cpp:253-283 | every number from 1 to the head gives the id of that block on the applied chain, from the ring or the log; the fork database is asked only beyond the head |
| BlockIdLookup.Lookup.Undo | libraries/chain/database.cpp:846-864 | popping a block that is not in the log leaves ring, log and chain consistent |
| TransactionDedupe.Chain.ApplyTransaction | libraries/chain/database.cpp:2682-2745 | accepted if and only if the id is not indexed and the expiration is in the window, and then indexed |
| TransactionDedupe.Chain.ClearExpired | libraries/chain/database.cpp:3065-3073 | exactly the entries older than the head block go |
| TransactionDedupe.Chain.ApplyBlock | libraries/chain/database.cpp:2523-2600 | taken if and only if it is later and all its transactions are accepted in turn; then exactly its transactions are added, none of them applied before; a refused block changes nothing |
| TransactionDedupe.RefusedAgain | libraries/chain/database.cpp:2682-2745 | an applied transaction is indexed until it expires and refused by its expiration afterwards, so it is never accepted again |
| TransactionDedupe.FreshIsTaken | libraries/chain/database.cpp:2682-2745 | a new transaction is always taken when it expires within the next hour, never otherwise after block 1, and always in block 1 |
| TransactionDedupe.BlockKeepsSound | libraries/chain/database.cpp:2523-2600 | a block that is taken brings only new ids and leaves exactly the unexpired applied ids in the index |
| TransactionDedupe.NeverTwice | libraries/chain/database.cpp:2682-2745 | over every run of blocks from genesis, block 1 included, the ids of the taken blocks are pairwise different |
| TransactionDedupe.Run | libraries/chain/database.cpp:2523-2600 | the chain after a run of blocks has applied exactly the transactions of the blocks that are taken, in order |
| Escrow.StepAccounted | libraries/chain/bmchain_evaluator.cpp:877-1009 | every operation keeps the account of deposit, fee, payments and endings |
| Escrow.EveryRunAccounted | libraries/chain/bmchain_evaluator.cpp:843-1009 | in every run deposit and fee equal what is held and paid; the fee goes once, to the agent or back; disputes and releases come only after both approvals; rejected and expired escrows were never released from |
| Escrow.Conserved | libraries/chain/bmchain_evaluator.cpp:877-1009 | one operation neither creates nor loses a unit |
| Escrow.CreateMeans | libraries/chain/bmchain_evaluator.cpp:843-875 | opened if and only if the agent is neither party and the deadlines are in order, holding deposit and fee unapproved |
| Escrow.ApproveMeans | libraries/chain/bmchain_evaluator.cpp:877-935 | who may approve or reject and when; a rejection pays everything back, the second approval the fee to the agent, a first one nobody |
| Escrow.DisputeMeans | libraries/chain/bmchain_evaluator.cpp:937-956 | who may dispute and when; nobody is paid |
| Escrow.ReleaseMeans | libraries/chain/bmchain_evaluator.cpp:958-1009 | released if and only if the sender may release to that receiver; exactly the named receiver gets the amount and the other party nothing |
| Escrow.ExpireMeans | libraries/chain/database.cpp:1989-2005 | an escrow expires if and only if it is unapproved past its deadline, and everything goes back to the sender |
| LedgerRuns.AddEffect | libraries/chain/database.cpp:3106-3152 | a change of one account moves the totals over all accounts by exactly that change |
| LedgerRuns.OrderKept | libraries/chain/bmchain_evaluator.cpp:1738-1791 | creating and cancelling limit orders moves coins between balance and order only |
| LedgerRuns.ContentKept | libraries/chain/bmchain_evaluator.cpp:2191-2276 | creating, cancelling and completing content orders conserve, offers below the comment's price are refused; re-pricing an open one opens a gap of twice the change |
| LedgerRuns.EscrowKept | libraries/chain/bmchain_evaluator.cpp:843-1009 | every escrow operation keeps all ledger equations |
| LedgerRuns.InterestKept | libraries/chain/database.cpp:1797-1834 | interest of any amounts raises savings and supply alike |
| LedgerRuns.RoutesKept | libraries/chain/database.cpp:1381-1408 | paying withdrawals along any routes conserves |
| LedgerRuns.WithdrawWithinSavings | libraries/chain/database.cpp:1367-1411 | routes of at most 100% together never overdraw the savings and never take more than the limit |
| LedgerRuns.PayAllEffect | libraries/chain/database.cpp:1088-1140 | any payments raise what is held by exactly their BMT and keep the vesting equations |
| LedgerRuns.CashoutKept | libraries/chain/database.cpp:1598-1686 | a cashout that debits the fund what it pays keeps all ledger equations |
| LedgerRuns.SweepKept | libraries/chain/database.cpp:1267-1330 | clearing the null account reduces supply, vesting and pending rewards consistently |
| LedgerRuns.ClaimWithin | libraries/chain/bmchain_evaluator.cpp:2061-2066 | a claim moves between nothing and all of the pending BMT |
| LedgerRuns.ClaimKept | libraries/chain/bmchain_evaluator.cpp:2052-2088 | claiming rewards keeps all ledger equations |
| LedgerRuns.TransferKept | libraries/chain/bmchain_evaluator.cpp:1011-1028 | transfers, also to savings and to oneself, conserve (who pays whom is stated by `LedgerMeaning.TransferMeans`) |
| LedgerRuns.CreateKept | libraries/chain/bmchain_evaluator.cpp:104-270 | account creation moves its fee to the reward fund, or to the new account's vesting |
| LedgerRuns.FeeKept | libraries/chain/database.cpp:466-475 | a fee leaves balance and supply alike |
| LedgerRuns.EmitKept | libraries/chain/database.cpp:3560-3596 | an emission raises supply by exactly what fund and producer get |
| LedgerRuns.BurnKept | libraries/chain/database.cpp:3230-3240 | the initial burn lowers supply, vesting fund and vesting shares alike |
| LedgerMeaning.TransferMeans | libraries/chain/bmchain_evaluator.cpp:1011-1028 | refused exactly for unknown accounts or too low a balance; otherwise the sender has the amount less, the receiver more, every other account and field is as before, and a transfer to oneself changes nothing |
| LedgerMeaning.ToSavingsMeans | libraries/chain/bmchain_evaluator.cpp:1949-1957 | the same from the balance of one account to the savings of another |
| LedgerMeaning.RoutesMean | libraries/chain/database.cpp:1381-1408 | each account is paid the percentages of its routes, all of it out of the one savings |
| LedgerMeaning.DepositMeans | libraries/chain/database.cpp:1390-1392 | a route takes its percentage of the part, by both bounds of the rounding |
| LedgerMeaning.WithdrawMeans | libraries/chain/database.cpp:1367-1411 | a withdrawal shares out the smaller of savings and limit along its routes, and nothing when that is not positive |
| LedgerMeaning.InterestMeans | libraries/chain/database.cpp:1817-1833 | every account has its own interest more in savings, and the supply grows by the sum |
| LedgerMeaning.OrderCreateMeans | libraries/chain/bmchain_evaluator.cpp:1738-1786 | the owner has the amount less and an order of it, exactly when the balance suffices |
| LedgerMeaning.OrderCancelMeans | libraries/chain/bmchain_evaluator.cpp:1788-1791 | the seller gets back what is for sale, and the order is gone |
| LedgerMeaning.ContentCreateMeans | libraries/chain/bmchain_evaluator.cpp:2191-2238 | the buyer has the price less and an open order, exactly when the offer is not below the asked price and below the balance |
| LedgerMeaning.ContentRepriceMeans | libraries/chain/bmchain_evaluator.cpp:2196-2236 | re-pricing an open order pays its owner the new price minus the old one; of a closed one nothing changes |
| LedgerMeaning.ContentCloseMeans | libraries/chain/bmchain_evaluator.cpp:2240-2276 | whoever is credited gets the price, once, and the order is closed |
| LedgerMeaning.EscrowCreateMeans | libraries/chain/bmchain_evaluator.cpp:843-875 | the sender has deposit and fee less and an escrow that holds them |
| LedgerMeaning.SettleMeans | libraries/chain/bmchain_evaluator.cpp:877-1009 | each party of an escrow gets exactly what the escrow pays it, and nobody else anything |
| LedgerMeaning.EscrowMeans | libraries/chain/bmchain_evaluator.cpp:877-1009 | every escrow operation is settled as the escrow decides, and refused for an unknown one |
| LedgerMeaning.ClaimMeans | libraries/chain/bmchain_evaluator.cpp:2052-2088 | a claim moves BMT to the balance and shares to the vesting of the same account, and behind them their share of the pending BMT, by both bounds, to the vesting fund; all of it with the last share |
| LedgerMeaning.CreateAccountMeans | libraries/chain/bmchain_evaluator.cpp:104-178 | the creator pays the fee, the fund gets it, the new account has nothing |
| LedgerMeaning.CreateDelegatedMeans | libraries/chain/bmchain_evaluator.cpp:181-270 | the creator pays the fee, which is the vesting of the new account |
| LedgerMeaning.PayFeeMeans | libraries/chain/database.cpp:466-475 | a fee leaves one balance and the supply |
| LedgerMeaning.EmitMeans | libraries/chain/database.cpp:3560-3596 | the fund gets its part of what is minted, the producer the rest |
| LedgerMeaning.BurnMeans | libraries/chain/database.cpp:3230-3240 | the initial burn takes shares of one account and their BMT from the vesting fund and supply |
| LedgerMeaning.SweepMeans | libraries/chain/database.cpp:1267-1330 | nothing positive is left to the null account, and what it had of BMT leaves the supply |
| LedgerMeaning.PayoutsMean | libraries/chain/database.cpp:1088-1140 | per account and kind: coins to the balance, shares to the vesting, claimable ones waiting with their BMT |
| LedgerMeaning.CashoutMeans | libraries/chain/database.cpp:1598-1686 | a cashout pays its payouts and takes all of them, of every kind, from the fund |
| LedgerRuns.NextKept | libraries/chain/database.cpp:3289-3398 | every ledger operation keeps the vesting and pending equations and moves the supply gap by its drift only |
| LedgerRuns.RunKept | libraries/chain/database.cpp:3289-3398 | over every run the gap between holdings and supply is exactly the drift of the re-pricings |
| LedgerRuns.RunBalancedIff | libraries/chain/database.cpp:3289-3398 | a run keeps the equations if and only if its re-pricings cancel out, in particular if it has none |
| LedgerRuns.RepriceBalancedIff | libraries/chain/bmchain_evaluator.cpp:2196-2236 | a re-pricing keeps the supply equation if and only if the order is closed, the price is the old one, the balance does not suffice or the offer is below the comment's price |
| LedgerRuns.RepriceBreaks | libraries/chain/bmchain_evaluator.cpp:2226-2226 | a named ledger with one open order of 10: re-pricing it to 20 leaves 20 more held than there is supply |
| Rewards.AwardsAddUp | libraries/chain/database.cpp:1504-1530 | whatever the weights, curators, beneficiaries and author together are credited exactly what is claimed from the fund |
| Rewards.CuratorsWithinPot | libraries/chain/database.cpp:1449-1475 | curators take at most the share of the pot that their weights have in the total |
| Rewards.AwardsNotNegative | libraries/chain/database.cpp:1504-1530 | with weights within their totals nobody's part of a reward is negative |
| Rewards.RewardWithinShare | libraries/chain/util/reward.cpp:38-62 | a reward is at most the fund's share by the comment's claim, dust included; the step by which a cashout never overdraws the fund (the exact value is `RewardMeaning.RewardMeans`) |
| RewardMeaning.RewardMeans | libraries/chain/util/reward.cpp:38-62 | without positive votes nothing; otherwise nothing exactly when the share of the fund is below the smallest payout, else that share by both bounds of its rounding |
| RewardMeaning.RewardInstances | libraries/chain/util/reward.cpp:54-60 | a comment with all claims gets 1000 of 1000 and 20 of 20, but nothing of 19 |
| RewardMeaning.ClaimsMean | libraries/chain/database.cpp:1634-1645 | what a block adds to the recent claims is the curve of exactly the comments whose time has come and whose votes are positive |
| RewardMeaning.DivisionDivides | libraries/chain/database.cpp:1504-1530 | the numbers of a divided reward by both bounds of every rounding: the pot, each curator by its weight, the rest, each beneficiary by its percentage, and the coins of the author by half of `percent_bmt_dollars` |
| RewardMeaning.PostCredits | libraries/chain/database.cpp:1504-1530 | for every account: voters and beneficiaries get exactly their parts as claimable, the author its part in shares and coins, nobody else anything |
| RewardMeaning.CuratorCredits | libraries/chain/database.cpp:1449-1475 | a voter gets the shares of its votes, as claimable rewards only |
| RewardMeaning.BeneficiaryCredits | libraries/chain/database.cpp:1513-1521 | a beneficiary gets its percentages, as claimable rewards only |
| RewardMeaning.AllCredits | libraries/chain/database.cpp:1647-1664 | over a whole cashout each account is credited the sum over the comments paid |
| RewardMeaning.CashoutCredits | libraries/chain/database.cpp:1598-1686 | in the ledger those credits are on the balances and in the pending rewards of exactly those accounts |
| Rewards.CashedOutMeans | libraries/chain/database.cpp:1553-1570 | after a payout a comment is due exactly one window later, positive votes are used up and negative ones stay, and until new votes it claims nothing and pays no curator |
| CommentCashout.Cashier.Credit | libraries/chain/database.cpp:1088-1140 | one payment is appended and nothing else changes |
| CommentCashout.Cashier.PayCurators | libraries/chain/database.cpp:1436-1479 | the loop pays every claim above zero in order and returns what is left of the pot, nothing if curation is off |
| CommentCashout.Cashier.PayBeneficiaries | libraries/chain/database.cpp:1513-1521 | the loop pays every beneficiary its percentage and returns their sum |
| CommentCashout.Cashier.PayPost | libraries/chain/database.cpp:1504-1530 | the payments of a comment are the specified ones and sum up to what it claims |
| CommentCashout.Cashier.CashOut | libraries/chain/database.cpp:1487-1570 | a comment is paid its exact reward and becomes due again only one window later |
| CommentCashout.Cashier.EarliestDue | libraries/chain/database.cpp:1630-1664 | finds the comment with the earliest cashout time if it is due, and none only when none is due |
| CommentCashout.Cashier.SumClaims | libraries/chain/database.cpp:1634-1645 | the recent claims grow by the curve of every due comment with positive votes |
| CommentCashout.Cashier.Process | libraries/chain/database.cpp:1598-1686 | terminates; every due comment is paid exactly once and no other, each its exact reward, all from one snapshot; the credits are in the ledger account by account; the fund is debited exactly what is credited and never overdrawn; its recent claims are the decayed ones plus those of the paid comments; the whole is one cashout step of the ledger |
| Rewards.DecayWithin | libraries/chain/database.cpp:1619-1625 | within the decay period and without overflow the 128-bit decay takes the elapsed share of the recent claims |
| Rewards.DecayMeans | libraries/chain/database.cpp:1619-1625 | in general what is taken is the share of the product modulo 2^128, by both bounds, and taken modulo 2^128 |
| CommentCashout.CashoutBalanced | libraries/chain/database.cpp:1598-1686 | a cashout of comments with sane weights keeps every equation of the ledger |
| Curation.Discounted | libraries/chain/bmchain_evaluator.cpp:1400-1408 | the reverse auction never raises a weight |
| Curation.DiscountMeans | libraries/chain/bmchain_evaluator.cpp:1400-1408 | within the window a weight counts by the elapsed share, by both bounds of the rounding, and from its end on in full |
| Curation.LaterCountsMore | libraries/chain/bmchain_evaluator.cpp:1400-1408 | waiting never lowers a weight |
| Curation.GrowthMeans | libraries/chain/bmchain_evaluator.cpp:1375-1398 | the weight of a first vote: nothing without positive votes or curation, otherwise its step on the curve, or for old comments its cube over the squared total |
| Curation.CubeMeans | libraries/chain/bmchain_evaluator.cpp:1382-1390 | the cube over the square, by both bounds |
| Curation.PowerWithin | libraries/chain/bmchain_evaluator.cpp:1262-1290 | an accepted vote leaves its voter a power between zero and full and makes at most the voter's vesting in shares, none only for weight zero |
| Curation.CurrentPowerMeans | libraries/chain/bmchain_evaluator.cpp:1262-1268 | power comes back in proportion to the time since the last vote, by both bounds, up to full power |
| Curation.PowerMeans | libraries/chain/bmchain_evaluator.cpp:1262-1290 | the exact refusals, the power used, rounded up, and the shares made of it, rounded down, with the sign of the weight |
| Curation.Comment.Cast | libraries/chain/bmchain_evaluator.cpp:1230-1502 | refused exactly for a challenged or declined voter, a comment without votes, too many changes, an empty first vote or a raise during the lockout; weights stay within the total; on the curve the total and what changed votes gave up is exactly how far the curve has risen; net counts equal the sums over votes |
| Curation.Comment.NewVote | libraries/chain/bmchain_evaluator.cpp:1325-1425 | a first vote records its discounted weight while the total grows by the full one |
| Curation.Comment.ChangeVote | libraries/chain/bmchain_evaluator.cpp:1429-1502 | a changed vote gives up its weight and the total falls by it |
| Curation.ReplaceVote | libraries/chain/bmchain_evaluator.cpp:1452-1470 | the case table for `net_votes` is the difference of the signs of the two votes |
| Curation.Comment.ClaimsWithinPot | libraries/chain/database.cpp:1449-1475 | at the first payout curators never claim more than the pot, after any sequence of votes |
| Curation.Comment.VotesArePayable | libraries/chain/database.cpp:1449-1475 | at the first payout the votes meet what a balanced cashout asks of them |
| Synopsis.Seamless | libraries/net/node.cpp:2386-2433 | the application's part followed by the node's part is one synopsis of the combined chain |
| Synopsis.SummaryLength | libraries/app/application.cpp:805-827 | a synopsis has exactly as many entries as the number of its blocks has binary digits |
| Synopsis.BitLengthIsLog | libraries/app/application.cpp:805-827 | that number of digits is the rounded-down binary logarithm plus one |
| Synopsis.SummaryShape | libraries/app/application.cpp:805-827 | a synopsis starts at the low block, ends exactly at the high block and rises strictly |
| Synopsis.SummaryHalves | libraries/app/application.cpp:815-826 | from each entry to the next, what is left to the end is halved |
| Synopsis.ViewIsChain | libraries/app/application.cpp:712-803 | whichever case of the reference point applies, the summarised ids are a chain that ends at the reference point |
| Synopsis.WriteKnownPart | libraries/app/application.cpp:805-827 | the loop over main chain and fork writes the known part of the synopsis |
| Synopsis.ApplicationPart | libraries/app/application.cpp:712-827 | errors for unknown, too old and unreachable forks, otherwise the known part of the right chain |
| Synopsis.NetworkPart | libraries/net/node.cpp:2413-2432 | the do-while loop appends the pending part at the same rhythm |
| Synopsis.SynopsisForPeer | libraries/net/node.cpp:2386-2433 | the synopsis for a peer is the seamless synopsis of the known chain and its pending ids |
| BlockSync.BlockIds | libraries/app/application.cpp:573-627 | the reply is a stretch of the main chain from the last recognised entry, full or complete, with the exact remaining count; an error exactly when nothing is recognised |
| BlockSync.HonestAnswer | libraries/net/node.cpp:2475-2546 | an honest reply passes the requester's checks if and only if the last recognised entry is not the null id or block 1 is an entry (or the reply is empty), and there is no reply if and only if nothing is recognised |
| BlockSync.NullSynopsisTurnedDown | libraries/net/node.cpp:2527-2544 | the honest reply to a synopsis of the null id alone is turned down |
| BlockSync.AnswerToSynopsis | libraries/net/node.cpp:2475-2546 | an honest reply to a synopsis as the node builds it always passes the checks |
| BlockSync.Peer.Check | libraries/net/node.cpp:2475-2546 | the checks pass if and only if the ids are consecutive and start at an entry, or at block 1 for an empty synopsis |
| BlockSync.Peer.OnInventory | libraries/net/node.cpp:2465-2688 | each outcome exactly under its condition, the disconnect for an implausible number of blocks included, and merging keeps the ids to get consecutive |
| BlockSync.WrappedCountPasses | libraries/net/node.cpp:2672-2675 | a number of blocks that is found implausible, and a larger one whose 32-bit time wraps and passes |
| BlockSync.TooManyMeans | libraries/net/node.cpp:2672-2675 | as long as nothing wraps, implausible means that the last offered block would be more than an hour ahead |
| BlockSync.MergedConsecutive | libraries/net/node.cpp:2582-2665 | merging consecutive ids into consecutive ids leaves consecutive ids |
| BlockSync.MergeKeepsAligned | libraries/net/node.cpp:2582-2665 | after a merge the ids follow on the last seen block if and only if an answer that is kept whole, because its first block is unknown or awaited from another peer, starts there |
| BlockSync.MergeMisaligns | libraries/net/node.cpp:2582-2621 | a named answer to a node that has seen block 5, kept whole for another peer, after which the ids do not follow |
| MessageFraming.Send | libraries/net/message_oriented_connection.cpp:256-273 | the filled buffer is header, data and zero padding to a multiple of 16 |
| MessageFraming.FrameLayout | libraries/net/message_oriented_connection.cpp:256-273 | size and kind in four bytes each, then the data, then fewer than 16 zero bytes up to a multiple of 16 |
| MessageFraming.LowestFirst | libraries/net/message_oriented_connection.cpp:256-273 | the lowest byte of a number comes first |
| MessageFraming.RemainingIs | libraries/net/message_oriented_connection.cpp:163-166 | the wrapping 32-bit subtraction still gives exactly the padded rest, also for sizes below the leftover |
| MessageFraming.ReadMessage | libraries/net/message_oriented_connection.cpp:158-173 | one turn of the loop reads one message or stops at the end or at an oversized one |
| MessageFraming.ReadLoop | libraries/net/message_oriented_connection.cpp:144-173 | the loop reads everything there is |
| MessageFraming.FrameRoundTrip | libraries/net/message_oriented_connection.cpp:144-173 | a frame reads back as its message and nothing behind it is touched |
| MessageFraming.StreamRoundTrip | libraries/net/message_oriented_connection.cpp:144-173 | the concatenated frames of any sendable messages read back as exactly those messages |
| BlockLog.EntryAt | libraries/chain/block_log.cpp:185-205 | where appending put a block, its bytes unpack to it and are followed by its position |
| BlockLog.IndexEntryAt | libraries/chain/block_log.cpp:244-258 | the index entry of a number is the position of that block |
| BlockLog.Log.Append | libraries/chain/block_log.cpp:185-205 | a block is appended if and only if it has the next number, and log and index stay what appending means |
| BlockLog.Log.ReadBlock | libraries/chain/block_log.cpp:213-226 | reading at a block's position gives it and the next position, so chained reads visit every block in order |
| BlockLog.Log.BlockPos | libraries/chain/block_log.cpp:244-258 | the position of every block in the log, nothing for other numbers |
| BlockLog.Log.ReadBlockByNum | libraries/chain/block_log.cpp:228-242 | returns the n-th appended block, nothing for other numbers |
| BlockLog.Log.ReadHead | libraries/chain/block_log.cpp:260-272 | the last eight bytes lead to the last block |
| BlockLog.Log.ConstructIndex | libraries/chain/block_log.cpp:279-307 | rebuilds exactly the index that appending wrote, for every log but that of one block, whose index stays empty |
| BlockLog.Log.Open | libraries/chain/block_log.cpp:125-172 | an index of any size: kept if its last eight bytes are the position of the last block, otherwise rebuilt; opening fails if and only if the index is too short to hold a position |
| BlockLog.LaggingIndexNoticed | libraries/chain/block_log.cpp:134-158 | an index that lacks the last blocks is never trusted |

## Left out

- Signatures, hashing, Merkle checks, authorities and chainbase storage: foreign code, assumed as listed above.
- The internals of the reward curves, price rounding and the floating-point interest amount: arbitrary amounts within the stated assumptions.
- Ledger.Apply: transfers, orders, escrow and account operations are functions on the ledger value; the order in which the source touches objects inside one such operation is not captured.
- Integers are unbounded except where their width matters: virtual time, the shuffle, the decay of recent claims, the message header, log positions, curation weights and `witnesses_voted_for`. The wrap of the sum of `recent_claims` and the 64-bit wrap of ledger amounts are not modelled.
- Negative savings, which the source would convert to a huge unsigned number in a withdrawal, are divided as signed numbers here.
- Account names are identified with account ids; accounts are never removed.
- The daily emission limit, `virtual_supply`, delegated vesting shares and the schedule of savings withdrawals: they do not enter the proved equations.
- Several reward funds: with more than one, an account creation fee would be credited to each; the ledger has the one fund of the running chain.
- Order matching: balances take only BMT, so two opposing orders never both exist; orders are created and refunded only.
- Votes on a comment after its first payout: the payout clears the comment's total weight but not the votes' weights, so the weight invariant ends there. Conservation at later payouts is still covered by `Rewards.AwardsAddUp`.
- The null-account sweep and the initial burn are not steps of the voting machine, since they change vesting behind the voters' back; `VotingMachine.BurnKeepsInvIff` says when that is harmless.
- The miner part of a witness round, which is empty because no miner witnesses are configured; voting on hard forks and the median of witness properties.
- The fork database's weak pointers are lookups by id in its index or in a branch held alive; its head is not claimed to equal the chain's head. Blocks that do not link are refused, as the source does before its unreachable insertion into the unlinked index.
- The history of a fork for a synopsis is an argument; ids beyond the head count as not on the main chain.
- ChainDatabase.Chain.ApplyOne: with a single scheduled witness a block makes itself irreversible; if its copy to the log then fails, the source cannot undo it, while the model drops it.
- Skip flags: blocks are applied with all checks on.
- Disabled evaluators, content orders before the block from which they are enabled, custom tokens, comment editing, private messages, the API, plugins, sockets, threads, the peer database and logging.
