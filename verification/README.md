# Verified model of the Lido oracle's arithmetic and state keeping

The Lido oracle reports validator exits, withdrawals, fees and rewards to the protocol's contracts. This project
models the parts of it that keep figures incrementally, use a closed form, or take a shortcut, and proves that each of
them agrees with something simpler, on every input:

- **Exit scheduler.** The iterator that orders node operators and ejects validators. Its running figures always equal
  a recomputation from what is left; its picks follow the documented order in three phases; the ejector's list stays
  within the exit limit.
- **Exit predictions.** The withdrawal sweep's closed form equals a payload-by-payload simulation; one churn
  computation on a sum equals the whole exit queue.
- **Performance collector.** The ring buffer of block roots, attestation and sync bits, and the duty table on which
  workers interleave.
- **Staking-module rewards.** Duty accounting per frame, counter by counter, performance, the split of rewards with its
  dust bound, conservation from frame to frame, and the window of strikes.
- **Vault fees.** Replaying a vault's events backward equals accruing its fee second by second.
- **Smaller refinements.** The extra-data encoding and its hash chain, block timestamps, the front-run filter on
  pending deposits, and the search for the earliest slashing.

`dafny verify dfyconfig.toml` checks everything. There is a module per component; where the source is a loop that
updates variables there is a method proved against a specification function or predicate, and the lemmas are about that
specification. `Wrappers`, `Sums`, `SetSums`, `Sorting`, `Bits` and `Encoding` hold what several components share.
Python's `float` and `Decimal` are `real`, a raised exception is a `Failure` or `None`, and what comes from a contract,
the consensus client, the execution client or the keys API is a parameter.

Four properties turned out to need a condition. It is part of the result, with an input that shows why:

- The check "misses above assigned" of the duty accounting cannot fire for any validator if and only if at most one row
  is at or before the first epoch of the frame and at most one at or after the last (`AlarmCondition`). Rows of the
  frame's own epochs are like that (`NoFalseAlarm`); `AlarmOutsideFrame` gives rows that are not.
- The timestamp shortcut answers every request rightly if and only if, whenever two blocks are exactly their slots apart,
  so is everything between them (`ShortcutCondition`). Chains with blocks at least a slot apart are like that
  (`SlotsMakeEven`); `ShortcutNeedsSlots` gives one that is not.
- The stored strikes are the last `lifetime` results for a fixed lifetime (`WindowLosesNothing`); for changing lifetimes
  `WindowAfterFrames` says exactly what is left, and `ShrinkingLifetimeForgets` shows a loss.
- The border of associated slashings is before the earliest slashed epoch if and only if that epoch is not 0, which the
  code reads as "none", or the reference epoch is 0 itself (`BorderIsBeforeSlashing`).

## Model

| member | source | states |
|---|---|---|
| ExitOrderIterator.ValidatorExitIterator.PrepareModuleStats | src/services/exit_order_iterator.py:156-159 | Every module, and nothing else, starts with zero figures and its threshold. |
| ExitOrderIterator.ValidatorExitIterator.PrepareNodeOperatorStats | src/services/exit_order_iterator.py:161-178 | Operators keep their listing order; a forced target is set only in force mode, a soft one only in soft mode. |
| ExitOrderIterator.ValidatorExitIterator.PrepareValidatorStats | src/services/exit_order_iterator.py:180-190 | An operator's exitable validators are exactly those not on exit, not requested and not consolidating, by index. |
| ExitOrderIterator.ValidatorExitIterator.CalculateCurrentClBalance | src/services/exit_order_iterator.py:199-212 | Operators, modules and the total are credited with every exitable validator, one by one. |
| ExitOrderIterator.ValidatorExitIterator.CalculatePendingValidatorClBalance | src/services/exit_order_iterator.py:214-234 | The deposit queue is credited key by key; it fails exactly on a key of an unknown operator. |
| ExitOrderSteps.WithExitableIsFresh | src/services/exit_order_iterator.py:199-212 | After counting the exitable validators every figure equals its recomputation. |
| ExitOrderSteps.WithPendingIsFresh | src/services/exit_order_iterator.py:214-234 | Counting the deposit queue on top keeps every figure equal to its recomputation. |
| ExitOrderIterator.ValidatorExitIterator.SetupWeights | src/services/exit_order_iterator.py:284-302 | Exactly the CMv2 operators get the contract's weights and nothing else changes; it fails if and only if some weights are stale. |
| ExitOrderIterator.ValidatorExitIterator.LinkExternals | src/services/exit_order_iterator.py:320-343 | External operators are linked in order up to the first error, and their balances are added up. |
| ExitOrderIterator.ValidatorExitIterator.LinkInternals | src/services/exit_order_iterator.py:345-358 | Sub operators are linked in order up to the first error, and balances and weights are added up. |
| ExitOrderIterator.ValidatorExitIterator.ProcessGroup | src/services/exit_order_iterator.py:320-377 | A group raises its first member's error, or adds to every member and to both modules the shares of the group. |
| ExitGroupLemmas.NoGroupErrorIffFits | src/services/exit_order_iterator.py:320-358 | A group is accepted if and only if its members are distinct, known, ungrouped, in the right module, and have weight. |
| ExitGroupLemmas.WithGroupKeepsFresh | src/services/exit_order_iterator.py:320-377 | Registering an accepted group keeps every figure equal to its recomputation, in both modules. |
| ExitOrderIterator.ValidatorExitIterator.SetupMetaConnections | src/services/exit_order_iterator.py:304-318 | All groups are registered one after the other, up to the first that fails. |
| ExitOrderIterator.ValidatorExitIterator.CalculateSmWeights | src/services/exit_order_iterator.py:379-381 | Every module's weight is the sum of its operators' weights. |
| ExitOrderIterator.ValidatorExitIterator.Prepare | src/services/exit_order_iterator.py:134-241 | Exactly when it succeeds, and with which error it fails; the prepared state is the specified one, fresh, with the listed targets, thresholds, weights and groups. |
| ExitPreparation.PreparationMeans | src/services/exit_order_iterator.py:156-381 | A prepared state has the operators' targets and the modules' thresholds; exactly the members of the groups are linked, and every weight is the contract's, the equal part of a group's, or the default. |
| ExitFigures.PreparedWeight | src/services/exit_order_iterator.py:284-381 | A prepared operator weighs what the contract says in CMv2, an equal part of its connected group's contract weights if external, and otherwise 100000. |
| ExitFigures.InboundInFigures | src/utils/validator_balance.py:6-32 | A validator brings in its balance, top-ups and consolidations, up to 2048 ETH with compounding credentials and 32 with others. |
| ExitFigures.PendingInFigures | src/services/exit_order_iterator.py:222-227 | A key in the deposit queue brings in its deposits, up to 32 ETH with 0x01 credentials and else up to 2048. |
| ExitFigures.ExitBalanceOfOne | src/services/exit_order_iterator.py:403-407 | The exit limit counts a validator with its maximum of 32 or 2048 ETH. |
| ExitFigures.PendingAddsUp | src/services/exit_order_iterator.py:214-234 | Counts and balances of the queue add up key by key, each key once and only for its operator. |
| ExitOrderIterator.ValidatorExitIterator.EjectValidator | src/services/exit_order_iterator.py:426-451 | The lowest-index validator leaves, and the state is the specified ejection. |
| ExitOrderIterator.ValidatorExitIterator.DecreaseAffectedStake | src/services/exit_order_iterator.py:453-475 | The exit balance leaves the operator, its module, and through its group the linked operators and the linked module. |
| ExitOrderLemmas.LinkedDecreasesAddUp | src/services/exit_order_iterator.py:453-475 | What a group's operators lose in the linked module adds up to exactly the exit balance. |
| ExitOrderLemmas.EjectedKeepsFresh | src/services/exit_order_iterator.py:426-475 | An ejection leaves counts, balances, stakes, group shares, module totals and the Lido total equal to a recomputation. |
| ExitOrderLemmas.EjectedKeepsWeights | src/services/exit_order_iterator.py:426-475 | An ejection leaves every module's weight the sum of its operators' weights. |
| ExitSelection.RunStaysFresh | src/services/exit_order_iterator.py:392-475 | After any number of ejections every figure is still what a recomputation gives. |
| ExitSelection.DeviationsSumToZero | src/services/exit_order_iterator.py:531-540 | Within a module the operators' deviations from their target stakes cancel out. |
| ExitSelection.ShareRatePriority | src/services/exit_order_iterator.py:506-529 | Modules rank by excess over their share, then by balance, and an empty module ranks last. |
| ExitSelection.BiggestDeviationFirst | src/services/exit_order_iterator.py:477-551 | Within a module and under equal limits the pick is furthest above its target stake, then has the lowest index. |
| ExitRanking.NextRanksFirst | src/services/exit_order_iterator.py:477-551 | The next pick is exactly the operator that ranks first by forced surplus, soft surplus, the module's excess over its rounded share or else its balance, the stake above target, and the lowest index. |
| ExitRanking.PicksRankFirst | src/services/exit_order_iterator.py:392-551 | From a fresh state on every pick of an iterator run ranks first in that order. |
| ExitRanking.NextForcedRanksFirst | src/services/exit_order_iterator.py:553-590 | The next forced pick is exactly the operator furthest above its forced target, and at a tie the one with the lowest index. |
| ExitRanking.ForcedPicksRankFirst | src/services/exit_order_iterator.py:553-590 | Every pick of a run of forced exits ranks first in that order. |
| ExitSelection.NextIsUnique | src/services/exit_order_iterator.py:477-484 | The pick does not depend on the dictionary's order or on the stability of the sort. |
| ExitSelection.PhasesInOrder | src/services/exit_order_iterator.py:392-504 | Along a run the picked forced surplus never grows, then the soft one; forced, soft and free picks follow in phases. |
| ExitSelection.RemainingIsTail | src/services/exit_order_iterator.py:426-427 | What an operator has left later in a run is a tail of what it had. |
| ExitSelection.EjectedOnceAndAscending | src/services/exit_order_iterator.py:392-427 | No validator is ejected twice, and within an operator the indices ascend. |
| ExitOrderIterator.ValidatorExitIterator.Next | src/services/exit_order_iterator.py:392-412 | A step ejects the operator of least key that has a validator, or stops; the one over the limit is counted, not yielded. |
| ExitOrderIterator.ValidatorExitIterator.NextForced | src/services/exit_order_iterator.py:563-581 | The same for operators above their forced target, and it stops only when there is none left or the limit is hit. |
| ExitOrderIterator.ValidatorExitIterator.GetRemainingForcedValidators | src/services/exit_order_iterator.py:553-584 | The loop ends, yields forced picks in order within the limit, and stops because nobody is left to force or the limit is hit. |
| Ejector.EjectForDemand | src/modules/oracles/ejector/ejector.py:178-197 | The list is an iterator run, cut at the first validator that covers the demand, and shorter only when the iterator stops. |
| Ejector.InboundTotalAddsUp | src/modules/oracles/ejector/ejector.py:187-193 | The balance to eject counts every validator with what it brings in, up to its maximum. |
| Ejector.GetValidatorsToEject | src/modules/oracles/ejector/ejector.py:168-216 | It fails only without a total weight and with a demand. Otherwise the list is an iterator run and then a run of forced exits, within the limit, and names nobody twice. The main part covers the demand unless nobody is left or its own next pick passes the limit; then nobody is left above a forced target unless the next pick passes the limit. |
| ValidatorState.ChurnLimitBounds | src/utils/validator_state.py:125-132 | The churn is the stake's share rounded down to whole ETH between 128 and 256 ETH, and otherwise the nearer of the two. |
| ExitChurn.ExitEpochIsEarliest | src/modules/oracles/ejector/ejector.py:309-332 | The computed epoch is the least one whose accumulated churn covers the balance. |
| ExitChurn.ExitEpochInFigures | src/modules/oracles/ejector/ejector.py:309-332 | Exits start five epochs after the report with a full churn, unless they already reach further; then with what is left over there. An epoch is enough exactly when the churn up to it covers the balance. |
| ExitChurn.AggregateEqualsQueue | src/modules/oracles/ejector/ejector.py:309-332 | For any exits one computation on their sum gives the epoch in which the exit-by-exit queue of the consensus layer ends. |
| Sweep.GetPendingPartialWithdrawals | src/modules/oracles/ejector/sweep.py:102-129 | The withdrawals are those of the performable queue entries, in order, limited by the excess balance. |
| Sweep.PartialsMeaning | src/modules/oracles/ejector/sweep.py:102-129 | Entry by entry: one withdrawal, in order, of the lesser of the amount asked for and the balance above 32 ETH, exactly for validators that are not exiting, fully staked and above 32 ETH. |
| Sweep.SweepInFigures | src/modules/oracles/ejector/sweep.py:145-158 | Who is swept and what is left to them: nothing of a withdrawable validator, and 32 or 2048 ETH of a full one. |
| Sweep.WithdrawnIsSum | src/modules/oracles/ejector/sweep.py:142-148 | What partial withdrawals take off a balance is the sum of that validator's withdrawals. |
| Sweep.GetValidatorsWithdrawals | src/modules/oracles/ejector/sweep.py:132-160 | Each validator that is withdrawable after its partials is swept once, in index order, for a positive amount. |
| Sweep.SweepIsUnique | src/modules/oracles/ejector/sweep.py:132-160 | The state determines the sweep, and with it the prediction. |
| Sweep.PredictWithdrawalsNumberInSweepCycle | src/modules/oracles/ejector/sweep.py:42-99 | The prediction is the closed form on the two lists of withdrawals. |
| Sweep.CycleCountsPartialsOnce | src/modules/oracles/ejector/sweep.py:85-97 | The ratio and the rounding come down to at most one partial withdrawal per validator withdrawal. |
| Sweep.SimulationMatchesClosedForm | src/modules/oracles/ejector/sweep.py:59-99 | The payloads of a simulation, up to 8 partials in each 16, are the predicted withdrawals divided by 16, rounded up. |
| Sweep.CycleIsLeast | src/modules/oracles/ejector/sweep.py:28-39 | The cycle in epochs is the least number of epochs with a slot for every simulated payload. |
| Sweep.SweepDelayIsLeast | src/modules/oracles/ejector/sweep.py:28-39 | The halved cycle is the least delay for which twice the delay and one more epoch have a slot for every simulated payload. |
| Sweep.GetSweepDelayInEpochs | src/modules/oracles/ejector/sweep.py:28-39 | The delay of a state is that of the simulation on its determined withdrawals. |
| DutiesDb.DutiesDB.StoreData | src/modules/sidecars/performance/common/db.py:210-241 | The epoch's row is inserted or overwritten, and no other row changes. |
| DutiesDb.DutiesDB.MaxEpoch | src/modules/sidecars/performance/common/db.py:308-311 | The greatest stored epoch, and none for an empty table or for epoch 0. |
| DutiesDb.DutiesDB.Prune | src/modules/sidecars/performance/common/db.py:243-253 | Exactly the rows with an epoch plus the retention above the anchor stay, unchanged; the anchor is the greatest stored epoch, or the current one if none is above 0. |
| DutiesDb.DutiesDB.StoreEpoch | src/modules/sidecars/performance/common/db.py:200-208 | Storing and pruning together, as one call: of the stored rows exactly the last `retention` epochs up to the anchor stay. |
| DutiesDb.UninterruptedWorker | src/modules/sidecars/performance/common/db.py:200-253 | The three transactions of a worker, run without interruption, do what one call of `store_epoch` does. |
| DutiesDb.WindowIsNeverDeleted | src/modules/sidecars/performance/common/db.py:243-253 | Under any interleaving no transaction deletes an epoch that, plus the retention, is above the greatest one. |
| DutiesDb.FinalTable | src/modules/sidecars/performance/collector/checkpoint.py:240-260 | When all workers are done the table holds exactly the initial and stored epochs that, plus the retention, are above the greatest one, with the right rows. |
| DutiesDb.ScheduleDoesNotMatter | src/modules/sidecars/performance/collector/checkpoint.py:240-260 | Any two complete schedules leave the same table. |
| BlockRoots.FrameCheckpoints | src/modules/sidecars/performance/collector/checkpoint.py:72-103 | The checkpoints cover the available epochs once and in order, all but the last with 255 epochs; the two range errors occur exactly when they should. |
| BlockRoots.GetBlockRoots | src/modules/sidecars/performance/collector/checkpoint.py:175-209 | For whatever chain the state and the headers belong to, every entry is the root of its slot if that has a block and nothing otherwise. |
| BlockRoots.RingBufferIsExact | src/modules/sidecars/performance/collector/checkpoint.py:175-209 | The entry of a slot is its block's root if it has a block and nothing otherwise, also on early chains and at the pivot. |
| BlockRoots.LookupIsExact | src/modules/sidecars/performance/collector/checkpoint.py:230-238 | A lookup answers for the slot asked, or says out of range exactly when it is. |
| BlockRoots.DutySlotsInRange | src/modules/sidecars/performance/collector/checkpoint.py:91-103 | Every duty lookup of a checkpoint is in range if and only if its epochs plus one fit into the ring buffer. |
| BlockRoots.NoLookupOutOfRange | src/modules/sidecars/performance/collector/checkpoint.py:211-238 | With at most 32 slots per epoch no duty lookup of any checkpoint is out of range. |
| BlockRoots.SelectBlockRoots | src/modules/sidecars/performance/collector/checkpoint.py:211-228 | The roots of the duty epoch and of the next one, slot by slot; it fails exactly when a slot is out of range. |
| BlockRoots.GetDependentRoot | src/modules/sidecars/performance/collector/checkpoint.py:399-426 | The root is that of the latest block before the epoch, and the search ends. |
| Bits.SerializeBitlist | tests/factory/bitarrays.py:33-48 | The bytes are the bits in order, the delimiting bit, then zeros. |
| Bits.BitIsSet | src/modules/sidecars/performance/collector/checkpoint.py:494-495 | A bit is read off its byte by dividing by a power of two. |
| Bits.DecodeOfEncode | src/modules/sidecars/performance/collector/checkpoint.py:484-495 | Decoding a serialized bitlist gives the bits back. |
| Bits.EncodeOfDecode | src/modules/sidecars/performance/collector/checkpoint.py:484-495 | Whatever decodes to some bits is the serialization of those bits. |
| Bits.SerializationIsUnique | tests/factory/bitarrays.py:33-48 | A list of bits has one serialization. |
| Attestations.ProcessAttestation | src/modules/sidecars/performance/collector/checkpoint.py:443-461 | Exactly the members of named committees leave the miss set whose aggregation bit is set, counted after all named committees of lower index; it fails exactly on an undecodable bitlist. |
| Attestations.AttestsByIndex | src/modules/sidecars/performance/collector/checkpoint.py:443-475 | Going through the committees in the order of the list finds exactly these members. |
| Attestations.GetSetIndices | src/modules/sidecars/performance/collector/checkpoint.py:469-471 | The indices are exactly those of the set bits, in strictly ascending order. |
| Attestations.ProcessAttestations | src/modules/sidecars/performance/collector/checkpoint.py:438-462 | The result is the miss set minus everybody with a bit set in some attestation. |
| Attestations.OrderDoesNotMatter | src/modules/sidecars/performance/collector/checkpoint.py:438-462 | Neither the order nor the repetition of attestations matters. |
| Attestations.BlocksAddUp | src/modules/sidecars/performance/collector/checkpoint.py:284-293 | Handling attestations block by block is handling them all together. |
| Attestations.ProcessSync | src/modules/sidecars/performance/collector/checkpoint.py:429-435 | Each unset bit adds one miss to its position; it fails exactly on an unset bit past the committee. |
| Collector.PrepareAttestationDuties | src/modules/sidecars/performance/collector/checkpoint.py:329-335 | The initial miss set is every member of some committee; exactly the listed committees can be looked up, a repeated one as listed last. |
| Collector.MarkProposed | src/modules/sidecars/performance/collector/checkpoint.py:290-291 | The slot's proposal, and no other, is marked; it fails exactly when the slot has no proposer. |
| Collector.CheckDuties | src/modules/sidecars/performance/collector/checkpoint.py:270-305 | Misses are the members who attested in no block of two epochs; proposals and sync misses match the duty epoch's blocks; the exact condition of success. |
| Collector.MakeRow | src/modules/sidecars/performance/common/db.py:210-241 | The row holds the outcome, with each missing validator once. |
| Collector.StoredRowIsConsistent | src/modules/sidecars/performance/collector/checkpoint.py:284-304 | A stored row has matching lengths and no validator's sync misses above the proposed blocks. |
| FrameDuties.ValidateEpochData | src/modules/oracles/staking_modules/base.py:370-383 | It passes if and only if misses are distinct and the lists match in length. |
| FrameDuties.AddProposals | src/modules/oracles/staking_modules/base.py:316-323 | Every proposal is counted for its validator and blocks are counted; it fails exactly on an unknown validator. |
| FrameDuties.AddSyncs | src/modules/oracles/staking_modules/base.py:325-337 | Sync duties are counted if there are blocks; it fails exactly on an unknown validator or too many misses. |
| FrameDuties.AddMisses | src/modules/oracles/staking_modules/base.py:339-347 | Each missing validator gets one miss; it fails exactly on one that is unknown or not active. |
| FrameDuties.CountActiveIsExact | src/modules/oracles/staking_modules/base.py:385-394 | The closed form is the number of epochs of the range in which the validator is active. |
| FrameDuties.AssignAttestations | src/modules/oracles/staking_modules/base.py:354-366 | Exactly the validators active in the frame get attestation counters; it fails exactly when misses exceed assignments. |
| FrameDuties.GetFrameDuties | src/modules/oracles/staking_modules/base.py:293-368 | The exact condition of success, and the counters of every validator over all rows. |
| FrameDutiesLemmas.StoredRowsFit | src/modules/oracles/staking_modules/base.py:307-347 | A row the collector stored is accepted once its validators are known and its missers were active. |
| FrameDutiesLemmas.NoFalseAlarm | src/modules/oracles/staking_modules/base.py:359-363 | On epochs of the frame misses never exceed the assigned attestations. |
| FrameDutiesLemmas.AlarmOutsideFrame | src/modules/oracles/staking_modules/base.py:359-363 | Rows of other epochs can pass all other checks and still exceed them. |
| FrameAlarm.AlarmCondition | src/modules/oracles/staking_modules/base.py:349-363 | For as many row epochs as the frame has, the check cannot fire for any validator if and only if at most one row is at or before the frame's first epoch and at most one at or after its last. |
| FrameDutiesLemmas.AttestationsMeaning | src/modules/oracles/staking_modules/base.py:354-366 | Included attestations are exactly the active epochs of the frame without a miss. |
| DutiesMeaning.SyncsMeaning | src/modules/oracles/staking_modules/base.py:325-337 | A validator's assigned sync duties are the blocks of each row once for every entry that lists it, and the missed ones are the misses listed there in rows with blocks. |
| DutiesMeaning.ProposalsMeaning | src/modules/oracles/staking_modules/base.py:316-323 | A validator's proposals are the entries that list it, and the included ones those with a block. |
| FrameDutiesLemmas.CountersAreSound | src/modules/oracles/staking_modules/base.py:293-368 | Every counter of the frame has between 0 and its assigned duties included. |
| FrameDutiesLemmas.ProposalsAreConserved | src/modules/oracles/staking_modules/base.py:316-323 | The network's proposals are all those of the rows, and the included ones are the blocks. |
| DutiesMeaning.SyncsAreConserved | src/modules/oracles/staking_modules/base.py:325-337 | The network's sync duties are the blocks over all listed members, and the missed ones are all the listed misses of rows with blocks. |
| DutyState.Merge | src/modules/oracles/staking_modules/common/state.py:54-60 | Merging adds the counters of every validator in all three dictionaries. |
| DutyState.MergeConserves | src/modules/oracles/staking_modules/common/state.py:29-60 | Merging neither loses nor invents a duty, and keeps counters sound. |
| DutyState.GetDutyNetworkAggr | src/modules/oracles/staking_modules/common/state.py:131-142 | The aggregate is the sum over all validators; it raises exactly when some counter has more included than assigned. |
| DutyState.AggregateIsSound | src/modules/oracles/staking_modules/common/state.py:131-142 | The aggregate of sound counters is sound. |
| DutyState.PerformanceIsAFraction | src/providers/execution/contracts/cs_parameters_registry.py:22-43 | The performance of sound duties raises exactly when no weight counts; it is between 0 and 1, and 1 just when every duty with weight was done. |
| DutyState.PerformanceIsMean | src/providers/execution/contracts/cs_parameters_registry.py:22-43 | The performance is the mean, by weight, of the included parts of the duties that are there. |
| DutyState.FramesTile | src/modules/oracles/staking_modules/common/state.py:81-86 | A range of epochs, in any order, is cut into consecutive frames without gap or overlap. |
| DutyState.State.SaveDuties | src/modules/oracles/staking_modules/common/state.py:88-92 | The frame's duties are merged and other frames are untouched; it fails exactly on an unknown frame. |
| FramePerformance.GetDutiesState | src/modules/oracles/staking_modules/base.py:270-291 | The state is filled exactly when the range is cut into whole frames and every frame's rows pass the accounting; it then holds the duties of exactly these frames. |
| FramePerformance.GetNetworkPerformance | src/modules/oracles/staking_modules/common/distribution.py:235-240 | The performance of the frame's aggregates under the default weights; it raises exactly on an unknown frame, a counter above its assignments, or an undefined performance. |
| FramePerformance.NetworkPerformanceNeverRaises | src/modules/oracles/staking_modules/common/distribution.py:235-240 | For sound counters none of the three aggregates raises and the network performance is between 0 and 1, and 1 just when all aggregates are complete. |
| FramePerformance.NetworkPerformanceInFigures | src/modules/oracles/staking_modules/common/distribution.py:235-240 | Of 64 parts of the network performance attestations make 54, proposals 8 and sync duties 2. |
| FramePerformance.EveryFramePerforms | src/modules/oracles/staking_modules/base.py:286-289 | In a filled state every frame's counters are sound and its network performance is defined. |
| FramePerformance.FrameComputesIffCovered | src/modules/oracles/staking_modules/common/distribution.py:176-214 | A frame read from sound counters has sound duties, and computes if and only if every active key has its parameters and, unless slashed, some weight and, if it performs, a reward share up to one. |
| Outcomes.GetForCovers | src/providers/execution/contracts/cs_parameters_registry.py:53-59 | The value is that of the last interval to start at or below the key; it raises just when there is none or the key is below 1. |
| Outcomes.WeightIsSplit | src/modules/oracles/staking_modules/common/distribution.py:276-310 | A performing validator's weight, its assigned attestations times its stake in whole ETH of at least 32, is split into participation, rounded up, and rebate; it raises if and only if the share is above one. |
| Outcomes.OthersBringNothing | src/modules/oracles/staking_modules/common/distribution.py:251-313 | Everyone else brings neither participation nor rebate, and exactly who is struck. |
| Distribution.NumberedIsValid | src/modules/oracles/staking_modules/common/distribution.py:181-196 | Numbering keeps exactly the active validators, each once, by descending balance, counted up to 2048 ETH, and then by ascending index. |
| Distribution.EvaluateOperator | src/modules/oracles/staking_modules/common/distribution.py:196-218 | Each key takes part with its reward share of its weight, rounded up, if it performs within its leeway of the network, and else with nothing; the rest is rebate, and exactly the worse or slashed keys are struck; the exact condition of success. |
| Distribution.CalculateDistributionInFrame | src/modules/oracles/staking_modules/common/distribution.py:164-233 | Each operator takes part with exactly its active validators and their outcomes, the rebate is what the outcomes leave, and rewards and rebate add up to what there was; it fails exactly on an undefined outcome or a negative amount. |
| Distribution.FrameResultIsUnique | src/modules/oracles/staking_modules/common/distribution.py:164-233 | The frame and the amount determine every operator's rewards, the rebate and the strikes. |
| Rewards.CalcRewardsDistributionInFrame | src/modules/oracles/staking_modules/common/distribution.py:315-351 | Every operator with participation gets its part, rounded down; it fails exactly on a negative amount, never on the sum. |
| Rewards.SplitBounds | src/modules/oracles/staking_modules/common/distribution.py:321-351 | Never more than there is; the protocol's rebate exceeds its exact part by less than one unit per paid operator, and takes all if none is paid. |
| Distribution.AddRewards | src/modules/oracles/staking_modules/common/distribution.py:103-104 | Every operator's total grows by its rewards of the frame, and the sum by theirs. |
| Distribution.DistributeFrame | src/modules/oracles/staking_modules/common/distribution.py:72-106 | After each frame rewards and rebate add up to the contract's figure, so the validation cannot raise, and every operator's total grows by its determined rewards. |
| Distribution.Calculate | src/modules/oracles/staking_modules/common/distribution.py:66-116 | It succeeds if and only if every frame computes and the figure never goes down; then nothing is lost over all frames, and every operator has what its keys earned in each. |
| Distribution.BooksAreUnique | src/modules/oracles/staking_modules/common/distribution.py:72-106 | The frames determine the books, and with them what every operator earns. |
| Strikes.StrikesList.Push | src/modules/oracles/staking_modules/common/types.py:47-49 | The item goes in front and everything else moves back one place. |
| Strikes.StrikesList.Resize | src/modules/oracles/staking_modules/common/types.py:43-45 | The length is as asked; kept items stay in place and new places are zero. |
| Strikes.ProcessStrikes | src/modules/oracles/staking_modules/common/distribution.py:364-387 | Every validator's window shifts by the frame's result up to the lifetime, and is stored unless it is all zero. |
| Strikes.WindowAfterFrames | src/modules/oracles/staking_modules/common/distribution.py:364-387 | After any frames with any lifetimes a window holds exactly the results that were never too old. |
| Strikes.WindowLosesNothing | src/modules/oracles/staking_modules/common/distribution.py:364-387 | With a fixed lifetime the stored list is the last results, newest first and zero padded; deleting zero lists loses nothing. |
| Strikes.ShrinkingLifetimeForgets | src/modules/oracles/staking_modules/common/distribution.py:379-382 | A lifetime that shrinks for one frame loses a strike that a later window would show. |
| VaultFees.ProcessEvent | src/services/staking_vaults.py:608-643 | The exact condition of each error; over an event that found the vault in some state it charges what accrued since, second by second, and gives that state back, or stops at a reconnection. |
| VaultFees.CalculateLiquidityFeeByEvents | src/services/staking_vaults.py:552-658 | The loop over the sorted events computes the replay, with its three errors. |
| VaultFees.CalculateLiquidityFee | src/services/staking_vaults.py:767-793 | The shortcut without events agrees with the replay, and its fee is shares times pooled ether per share, for the elapsed part of a year at the annual and the fee rate. |
| VaultFees.FeeOfAYear | src/services/staking_vaults.py:509-518 | A full year at the full fee rate yields the annual rate of the value. |
| VaultFees.FeeInFull | src/services/staking_vaults.py:509-518 | A fee times all shares, a year of seconds and 10000 is the shares times pooled ether, seconds, annual rate and fee rate. |
| VaultFees.UndoesWhatHappened | src/services/staking_vaults.py:520-544 | Applying an event backward undoes what it did forward. |
| VaultFees.ReplayConservesShares | src/services/staking_vaults.py:520-544 | Without a reconnection the shares the replay comes back to, plus those minted or received and minus those burned, rebalanced, written off or passed on, are the present shares. |
| VaultFees.SortReverses | src/services/staking_vaults.py:604-606 | The order in which events were fetched does not matter. |
| VaultFees.ReplayIsAccrual | src/services/staking_vaults.py:598-658 | Back from any boundary, the replay of a history is its accrual second by second, charged in the report's own figures. |
| VaultFees.BackwardEqualsForward | src/services/staking_vaults.py:552-658 | For every consistent history the fee is the accrual, in the report's own figures, since the start or the last reconnection, and the shares are those at that start. |
| VaultFees.ReportedSharesMatch | src/services/staking_vaults.py:866-897 | The check against the previous report passes exactly when the reported shares were those at the start. |
| ExtraData.BuildValidatorsPayloads | src/modules/oracles/accounting/third_phase/extra_data.py:66-93 | The payloads hold the sorted input, each of one module and within the limit, and only a module's last one is not full. |
| ExtraData.PayloadsHoldInput | src/modules/oracles/accounting/third_phase/extra_data.py:77-91 | Every module, operator and value of a payload is an entry of the input. |
| ExtraData.CutIsUnique | src/modules/oracles/accounting/third_phase/extra_data.py:76-91 | The input determines the payloads: grouping and batching leave no choice. |
| ExtraData.BuildExtraTransactionsData | src/modules/oracles/accounting/third_phase/extra_data.py:96-125 | Items are numbered across transactions; it fails exactly when some field overflows its bytes. |
| Encoding.DigitAt | src/modules/oracles/accounting/third_phase/extra_data.py:112-119 | Numbers are big-endian: the byte at a place is the digit of its weight. |
| ExtraData.AddHashesToTransactions | src/modules/oracles/accounting/third_phase/extra_data.py:128-146 | The reversed loop computes the chain: each transaction led by the hash of the next full one. |
| ExtraData.Collect | src/modules/oracles/accounting/third_phase/extra_data.py:35-63 | All steps together, with the item count and the format flag. |
| ExtraDataParser.RoundTrip | src/modules/oracles/accounting/third_phase/extra_data.py:18-63 | Parsing by the documented layout gives exactly the input in strictly increasing order, with items numbered from 0. |
| ExtraDataParser.BodyIsCanonical | src/modules/oracles/accounting/third_phase/extra_data.py:20-28 | A body reads as the numbered items if and only if they fit their fields and it is, byte for byte, what the writer makes of them. |
| ExtraDataParser.TransactionSizes | src/modules/oracles/accounting/third_phase/extra_data.py:105-123 | No transaction is empty or has too many items, and only the last is not full. |
| ExtraDataParser.ChainedIsChain | src/modules/oracles/accounting/third_phase/extra_data.py:128-146 | The returned transactions form a hash chain from the returned hash. |
| ExtraDataParser.HashCommits | src/modules/oracles/accounting/third_phase/extra_data.py:128-146 | Two different chains under one data hash exhibit a collision or a preimage of zero. |
| BlockTimestamps.TimestampsAreTrue | src/utils/block.py:94-130 | On chains whose even stretches are even throughout every timestamp is the true one, whatever the batch limit. |
| BlockTimestamps.ShortcutCondition | src/utils/block.py:94-130 | Every request within a range of blocks is answered rightly if and only if, whenever two of its blocks are exactly their slots apart, so is everything between them. |
| BlockTimestamps.SlotsMakeEven | src/utils/block.py:109-113 | Chains with blocks at least a slot apart meet that condition. |
| BlockTimestamps.ShortcutNeedsSlots | src/utils/block.py:109-113 | Where two blocks are closer than a slot the shortcut can be wrong. |
| BlockTimestamps.GetBlockTimestamps | src/utils/block.py:23-57 | Every requested block, and no other, is mapped to its true timestamp. |
| PendingDeposits.CollectValidPendingDeposits | src/web3py/extensions/lido_validators.py:258-307 | A wanted key maps to its deposits from the first validly signed one on if that one is Lido's, and is absent otherwise. |
| PendingDeposits.DecisionIsFinal | src/web3py/extensions/lido_validators.py:258-307 | Later deposits never admit or exclude a decided key; they only extend its list. |
| Web3Converter.SlotIsInFrame | src/utils/web3converter.py:49-66 | A slot lies between the first and the last slot of its frame. |
| Web3Converter.EpochAndFrameOfSlot | src/utils/web3converter.py:24-66 | A slot belongs to an epoch, and to a frame, if and only if it lies between its first slot and the next one's. |
| Web3Converter.FrameStartsAnEpoch | src/utils/web3converter.py:24-66 | A frame's first slot starts an epoch, which belongs to the frame. |
| Web3Converter.RoundingIsDown | src/services/safe_border.py:248-251 | Rounding goes down, by less than a frame, to an epoch that rounds to itself. |
| SafeBorder.SearchFrame | src/services/safe_border.py:190-200 | The binary search finds what a linear scan finds. |
| SafeBorder.NothingBefore | src/services/safe_border.py:190-200 | The scan's frame shows a slashing or is the end, and no frame before it does. |
| SafeBorder.FindEarliestSlashedEpochRoundedToFrame | src/services/safe_border.py:171-204 | The epoch is the first one of the scanned frame. |
| SafeBorder.SearchBounds | src/services/safe_border.py:171-188 | The scan runs from the frame of the later of the last finalized request and the first activation to that of the earlier of the report and 8192 epochs before the first withdrawable epoch. |
| SafeBorder.SearchIsSafe | src/services/safe_border.py:171-219 | The epoch rounds to itself and is never later than a slashing at or after the start frame. |
| SafeBorder.PredictionIsExact | src/services/safe_border.py:153-169 | For a recorded slashing the prediction never raises, is exact when it answers, and the condition under which it does. |
| SafeBorder.GetEarliestSlashedEpochAmongIncompleteSlashings | src/services/safe_border.py:127-151 | Exactly the slashed validators that are not yet withdrawable count. The least prediction if all are told; otherwise the first that is not decides between an error and the search. |
| SafeBorder.EarliestIsSafe | src/services/safe_border.py:127-204 | For recorded slashings the resulting epoch is at or before every one of them. |
| SafeBorder.BorderIsBeforeSlashing | src/services/safe_border.py:110-124 | The border is a whole shift before the earliest slashed epoch if and only if that epoch does not read as none, or the reference epoch is 0. |
| SafeBorder.BorderIsExact | src/services/safe_border.py:110-124 | A shift after the border begins the frame of the earliest slashed epoch; without such an epoch, or with epoch 0, it is the reference epoch. |

## Left out

- Rounding of floats and of Decimal: stakes, shares, performances and fees are exact reals, and the final rounding of vault fees up to an integer is not modelled.
- Aliasing of an operator's `module_stats` with the module's own entry: dictionaries of records are maps of values, so the update in place of a shared record is not captured.
- Insertion order of dictionaries: where the source loops over a dictionary the model takes its keys in an arbitrary order, except for the iterator's operators and the extra data's input, which are lists.
- Ejector.GetValidatorsToEject: the predicted execution-layer balance is a parameter, an arbitrary function of the balance to eject.
- ExitOrderIterator.ValidatorExitIterator.Prepare: the lookup of the two curated modules and its configuration errors, and the parsing of an external operator's global index, are not part of this model.
- BlockRoots.GetDependentRoot: the search for the latest block outside the ring buffer is the client's answer; epoch 0 is not a duty epoch.
- DutiesDb.DutiesDB.MaxEpoch: epoch 0 reads as no epoch, as in the source; sessions, engines and demands are not modelled.
- Collector.CheckDuties: the proposer duties and the sync committee of the epoch are inputs; caches, metrics and the thread pool's own errors are not modelled.
- Distribution.Calculate: the fetching of block stamps, keys and curve parameters for a frame, and the logs, are inputs or left out; the duties of a frame's validators are taken to be sound, which `EveryFramePerforms` and `FrameComputesIffCovered` prove of duties read from the accounting.
- VaultFees.BackwardEqualsForward: infrastructure and reservation fees are a single product and are left out.
- ExtraDataParser.RoundTrip: the reading contract is not part of the repository; the parser follows the documented layout, and the hash is an arbitrary function to 32 bytes.
- PendingDeposits.CollectValidPendingDeposits: the signature check is an arbitrary predicate on deposits.
- SafeBorder.SearchIsSafe: the slashed flags are an arbitrary permanent predicate; the border after a negative rebase only compares contract constants and is left out.
- Clients, contract wrappers, caches, retries, telemetry, Merkle trees, IPFS and the web server: input and output only.
- Bunker-mode rebase estimates: heuristics on floats without a sharp property.
