# lean-rust: a Dafny model of the consensus core

lean-rust is a consensus client for the lean Ethereum devnet. This project models its
state transition, its fork-choice store, block production, the wire forms of blocks and
stream frames, and the one-time signing keys, and proves what they keep over every run.

Hash functions are parameters (`Hashes`): block, body and state roots are uninterpreted.
A `Root` is the 32 bytes read as a big-endian number, so numeric order is the byte order
the program compares by, and `0` is the zero sentinel. A `u64` is the subset type `U64`;
where the program checks for overflow the model does too. Bitlists are `seq<bool>`.

Code that updates state in place is a class (`StateObject`, `StoreObject`, `SigningKey`,
`Reader`) or a method with loops; each is proved equal to a function on values, and the
main results are lemmas about those functions. The modules named `...Rule`, with
`WireLayout` and `FrameGrammar`, say what each call decides in terms of the data alone,
without the filters, descents and walks that the functions use to decide it.

| file | what it holds |
|---|---|
| `Containers.dfy`, `Collections.dfy` | entities, errors, limits; facts about finite sets and sequences |
| `Justifiability.dfy` | integer square root and the justifiable-distance rule |
| `Tally.dfy` | the pending-vote table and its flat stored form |
| `Transition.dfy`, `LiveState.dfy` | the state transition as functions, and the object that runs it in place |
| `TransitionRule.dfy`, `VoteRule.dfy` | what the stages and a single vote do, told over the fields |
| `ChainInvariant.dfy` | what every chain run keeps; atomicity of failures |
| `Quorum.dfy`, `Links.dfy` | who backs a justified slot; which votes stand behind finality |
| `HalfWritten.dfy` | failures that leave a trace |
| `OrderIndependence.dfy`, `OneTarget.dfy`, `OrderMatters.dfy` | exactly when the order of a batch of votes matters |
| `Ghost.dfy`, `SafeTarget.dfy` | head selection, and the two-thirds descent |
| `Sealing.dfy` | how a block's root reappears as its child's parent root |
| `StoreValues.dfy`, `StoreInvariant.dfy`, `ForkHistory.dfy`, `VotePools.dfy` | the store as values; what every store run keeps |
| `VoteTarget.dfy`, `Production.dfy`, `Convergence.dfy`, `LiveStore.dfy` | attestation targets, block building, the store object |
| `ForkChoiceRule.dfy`, `StoreRule.dfy` | where head, safe target and attestation target stand, and what the store's calls decide, told by counting and following parents |
| `StoreExamples.dfy` | runs that end in a block that cannot be built and in a vote its own node refuses |
| `Ssz.dfy`, `BlockCodec.dfy`, `Frames.dfy` | list codecs, block codecs, stream frames |
| `WireLayout.dfy`, `FrameGrammar.dfy` | which byte is which field; exactly which bytes are a frame |
| `KeyState.dfy`, `OneTimeGuard.dfy` | one-time keys and the durable watermark |

What is assumed of foreign code is stated as predicates, each with a lemma that something
satisfies it: `SoundHashes` (a header root determines its slot, and no header or state
hashes to zero), met by functions whose roots fit in 32 bytes, and `Sound` for the
signature scheme (its window moves right without gaps and stops only at the end; key
generation leaves an aligned range alone). The results about a single chain hold for any
hash functions, except that the double-voter bound needs a header root to determine its
slot, and `SealedRoot` needs the block's state root not to be zero.

## Properties that fail, and when they hold

- A failed header stage can leave a half-written state (`HeaderLeavesHalf`), exactly when
  the justified-slot bitlist would pass its limit (`HeaderFailureMutatesIff`); a failed
  batch can too (`BatchLeavesHalf`), exactly when it justified something and the table
  that remains is too large to store (`BatchFailureMutatesIff`), and never when a row for
  every stored root and every target would fit (`SmallBatchAtomic`). Both examples are
  states the decoder accepts. On reachable states neither happens (`HeaderAtomic`,
  `AttestationsAtomic`).
- The order of a batch of votes can show (`OrderShows`). It never shows when a vote is out
  of range (`OutOfRangeInEveryOrder`) or when no raised row has two thirds
  (`PermutationInvariant`), which is exactly when nothing is justified
  (`JustifiesNothingIff`). It always shows when two or more slots are justified: some other
  order ends differently (`TwoTargetsShowOrder`). When exactly one is, it can show
  (`OneSlotOrderShows`), and it does not show exactly when the votes that could complete
  the two thirds agree on what they finalize, every vote for another root leaves the same
  mark, and justifies nothing, whether it comes before or after, and every vote for another
  slot with the same root, as empty slots have, changes nothing (`OneOutcomeIff`).
  Together: `OrderIrrelevantIff`.
- A known vote can be replaced by an older one (`OlderGossipReplacesOnChainVote`), exactly
  when a promotion finds an older one pending (`KnownFallsIff`, `PromotionDropsIff`), which
  over any run takes an accepted older gossip vote (`FallNeedsLowGossip`).
- A candidate block over the pooled votes can fail although its validator may propose:
  exactly when a vote it includes has its target at or past the block's own slot
  (`FoldedCandidateIff`), as in the run of `ProposerCannotBuild`.
- A node's own attestation can fail its own validation: exactly when the justified slot is
  past the target's or the vote is more than one slot ahead (`OwnVoteAcceptedIff`), as in
  the run of `OwnVoteRefused`.
- A finalized checkpoint need not have two thirds behind its link to the next justified
  one: the vote that completes the two thirds is enough (`OneLinkFinalizes`). What holds
  over every run is that there was such a vote, with nothing justifiable in between at
  that moment (`FinalizedHasLink`), and that the sequence of these votes determines
  justification and finality (`RunExplained`).
- A one-byte payload, or one of more than 4095 blocks, cannot be read back from its own
  frame; every other payload within the cap can (`WrittenFrameIsRead`).
- A node that stops between signing and saving may sign an epoch twice
  (`LostSaveSignsTwice`); it never releases one twice (`ReleasedEpochsIncrease`), and
  after a start it refuses exactly what was saved (`RestartRefusesIff`).

## Where code and comments differ

- `Justifications::try_from` is documented to check that the flat length is a multiple of
  the registry size; the code checks that it equals rows times registry size, as here.
- `process_attestations` is documented to leave the state as it was on every error; the
  write-back error comes after the commit, as here (`BatchLeavesHalf`).
- The frame reader documents an 11-byte length prefix as overflow; the code also refuses a
  10-byte prefix whose last byte is above 1, as here.
- `key_state.rs` says a reloaded key starts with no watermark; `record.rs` restores it, as
  here.

## Model

| member | source | states |
|---|---|---|
| `Justifiability.Isqrt` | crates/protocol/src/slot.rs:94-109 | for every `u64`, Newton's loop ends with r*r <= n < (r+1)*(r+1) and r below 2^32 |
| `Justifiability.NewtonStep` | crates/protocol/src/slot.rs:102-108 | one step from above the root stays above it, and stops only at the root |
| `Justifiability.RootDecides` | crates/protocol/src/slot.rs:85-88 | comparing with the integer root alone decides squares and pronics |
| `Justifiability.IsJustifiableAfter` | crates/protocol/src/slot.rs:77-89 | true exactly when the distance is at most 5, a square or a pronic number |
| `Justifiability.JustifiableDistanceNearby` | crates/protocol/src/slot.rs:77-89 | some justifiable distance lies within the integer root below any distance |
| `Tally.TryHydrate` | crates/protocol/src/state.rs:564-608 | builds the table of rows, failing exactly when the flat length is wrong |
| `Tally.WriteBack` | crates/protocol/src/state.rs:615-652 | roots ascending and rows packed, failing exactly over the bitlist limit |
| `Tally.FlattenRow` | crates/protocol/src/state.rs:635-648 | bits i*n up to i*n+n of the flat form are row i |
| `Tally.HydrateFlatten` | crates/protocol/src/state.rs:564-652 | writing a table out and reading it in gives the same table |
| `Tally.FlattenHydrate` | crates/protocol/src/state.rs:564-652 | reading sorted rows in and writing them out gives the same roots and bits |
| `LiveState.StateObject.ProcessSlots` | crates/protocol/src/state.rs:391-423 | the in-place slot loop computes `ProcessSlots`, failing unchanged when the target is not ahead |
| `LiveState.StateObject.ProcessBlockHeader` | crates/protocol/src/state.rs:450-537 | the in-place header stage, its late bitlist failures included, computes `ProcessBlockHeader` |
| `LiveState.StateObject.ProcessAttestations` | crates/protocol/src/state.rs:723-812 | the vote loop over working copies and the final commit compute `ProcessAttestations` |
| `LiveState.StateObject.CastVote` | crates/protocol/src/state.rs:760-804 | one vote: filter, tally, justify at two thirds, finalize when nothing justifiable lies between |
| `LiveState.StateObject.NothingJustifiableBetween` | crates/protocol/src/state.rs:794-801 | the scan between source and target agrees with the quantified condition |
| `LiveState.StateObject.StateTransition` | crates/protocol/src/state.rs:838-860 | the whole transition on a copy, committed only on success |
| `TransitionRule.SlotsRule` | crates/protocol/src/state.rs:391-423 | over the fields: the slot moves to the target, a zero state root is filled in once, with the first non-zero root, and nothing else changes |
| `TransitionRule.HeaderErrors` | crates/protocol/src/state.rs:449-500 | each check of the header stage, in order, with its error and without effect |
| `TransitionRule.HeaderEffect` | crates/protocol/src/state.rs:502-537 | entry by entry: the history gains the parent root and zeros, the bits gain as many, the first header seeds both checkpoints, nothing else changes |
| `TransitionRule.WholeRule` | crates/protocol/src/state.rs:838-860 | a transition succeeds exactly when its stages do and the checked root agrees; a failure is that of the first stage to fail and leaves the state |
| `TransitionRule.LastRowWins` | crates/protocol/src/state.rs:564-608 | from any flat form, sorted or not, a root gets the row at its last place in the list |
| `TransitionRule.BatchStart` | crates/protocol/src/state.rs:564-608 | a batch starts from that table, and a flat form of the wrong length fails without effect |
| `TransitionRule.BatchEnd` | crates/protocol/src/state.rs:806-812 | a batch leaves the loop's bits and checkpoints, and the loop's table exactly when it fits |
| `VoteRule.VoteCounts` | crates/protocol/src/state.rs:760-792 | a forward vote between history roots, from a justified slot to one that is not, at a distance of at most 5, k*k or k*(k+1), marks its validator, or with two thirds marked justifies its target |
| `VoteRule.OnlyCountingVotesAct` | crates/protocol/src/state.rs:760-768 | any other vote changes nothing |
| `VoteRule.FinalizesIff` | crates/protocol/src/state.rs:795-804 | a justifying vote finalizes its source exactly when no slot strictly between is at such a distance from the live finalized slot |
| `VoteRule.LoopPassesIff` | crates/protocol/src/state.rs:745-757 | the vote loop passes exactly when every slot and validator is in range; otherwise the batch fails without effect |
| `VoteRule.FirstErrorWins` | crates/protocol/src/state.rs:745-757 | the error is that of the first vote out of range, its source before its target before its validator |
| `VoteRule.BatchStepByStep` | crates/protocol/src/state.rs:740-812 | on reachable states a batch is its votes stored one at a time, from the first |
| `ChainInvariant.GenesisInvariant` | crates/protocol/src/stf.rs:49-60 | the genesis state satisfies the chain invariant |
| `ChainInvariant.FinalizedSourceNotBelow` | crates/protocol/src/state.rs:794-804 | a source that gets finalized is never below the live finalized slot |
| `ChainInvariant.VoteKeepsInvariant` | crates/protocol/src/state.rs:760-804 | one vote keeps the invariant, never lowers finality, never clears a bit, sets none at or below finality |
| `ChainInvariant.TableFits` | crates/protocol/src/state.rs:615-631 | pending rows name distinct unjustified slots, so write-back stays within its limit |
| `ChainInvariant.StoredPendingReadsBack` | crates/protocol/src/state.rs:564-652 | a stored table is sorted, well sized and reads back as itself |
| `ChainInvariant.PendingStoresBack` | crates/protocol/src/state.rs:564-652 | a well-formed state is unchanged by reading its table and storing it |
| `ChainInvariant.HeaderFailureMutatesIff` | crates/protocol/src/state.rs:484-537 | a failed header stage changes the state exactly when the gate passed and the bitlist is out of room |
| `HalfWritten.HeaderLeavesHalf` | crates/protocol/src/state.rs:484-537 | a decodable state with a full bitlist and an empty history on which a failed header stage grows the history |
| `HalfWritten.BatchFailureMutatesIff` | crates/protocol/src/state.rs:615-652 | a failed batch changes the state exactly when its votes are in range, a raised row has two thirds, and the remaining table is over the limit |
| `HalfWritten.SmallBatchAtomic` | crates/protocol/src/state.rs:615-652 | on any state, if a row for every stored root and every target of the batch fits the limit, a failed batch changes nothing |
| `HalfWritten.BatchLeavesHalf` | crates/protocol/src/state.rs:807-812 | a decodable state, its pending bitlist full, and three votes for which the commit happens and the write-back fails |
| `ChainInvariant.HeaderAtomic` | crates/protocol/src/state.rs:450-537 | on reachable states a failed header stage changes nothing |
| `ChainInvariant.HeaderKeepsInvariant` | crates/protocol/src/state.rs:484-537 | history and bitlist grow in step, the checkpoints stay anchored in history |
| `ChainInvariant.AttestationsAtomic` | crates/protocol/src/state.rs:723-812 | on reachable states a failed batch changes nothing |
| `ChainInvariant.BatchDoneIff` | crates/protocol/src/state.rs:723-812 | on reachable states a batch succeeds exactly when every vote is in range |
| `ChainInvariant.AttestationsKeepInvariant` | crates/protocol/src/state.rs:723-812 | a batch keeps the invariant: every pending row names an unjustified slot, is non-empty and below two thirds |
| `ChainInvariant.OpKeepsInvariant` | crates/protocol/src/state.rs:391-860 | slots, header, attestations and whole transitions each keep the invariant and fail without effect |
| `ChainInvariant.TransitionStages` | crates/protocol/src/state.rs:838-860 | a successful transition is its three stages in order, with the root check |
| `ChainInvariant.RunKeepsInvariant` | crates/protocol/src/state.rs:391-860 | over every run the invariant holds and each prefix is extended: finality never drops, no bit clears, none is set at or below finality |
| `ChainInvariant.FinalizedIsPermanent` | crates/protocol/src/state.rs:504-535 | from genesis, a finalized root stays in history, stays justified, and later finality is at or above it and at or below justification |
| `Quorum.RunQuorum` | crates/protocol/src/state.rs:760-792 | in every run from genesis each justified slot above 0 is backed by two thirds distinct validators who voted for its root |
| `Quorum.BallotNamesSlot` | crates/protocol/src/state.rs:760-775 | a recorded ballot for a non-zero root also names that root's slot |
| `Quorum.ConflictingJustification` | crates/protocol/src/state.rs:760-792 | two runs from one genesis that justify different non-zero roots at one slot share a third of the registry as double voters |
| `Links.NextLinkSound` | crates/protocol/src/state.rs:760-804 | a vote that completes two thirds runs from slot 0 or an earlier target to a new target, under the finality the earlier ones explain |
| `Links.RunExplained` | crates/protocol/src/state.rs:740-812 | in every run from genesis the votes that completed two thirds, in order, determine the justified slots, the justified checkpoint and the finalized one |
| `Links.FinalizedHasLink` | crates/protocol/src/state.rs:795-804 | whatever a run finalizes above slot 0 was the source of an accepted vote that justified a later slot, with nothing justifiable between under the finality of that moment |
| `Links.OneLinkFinalizes` | crates/protocol/src/state.rs:795-804 | two of three validators justify a slot from different sources, and the source of the completing vote alone is finalized |
| `OrderIndependence.JustifiesNothingIff` | crates/protocol/src/state.rs:740-812 | in-range votes justify nothing exactly when no stored row, with the batch raised in it, has two thirds |
| `OrderIndependence.PermutationInvariant` | crates/protocol/src/state.rs:740-812 | such votes give the identical outcome in every order, a condition told before the call |
| `OrderIndependence.OutOfRangeInEveryOrder` | crates/protocol/src/state.rs:746-757 | a batch with a vote out of range fails without effect in every order |
| `OrderIndependence.TwoTargetsShowOrder` | crates/protocol/src/state.rs:700-713 | a batch that justifies two or more slots ends with other justified slots or another justified checkpoint in some order |
| `OneTarget.OneOutcome` | crates/protocol/src/state.rs:740-804 | under the one-slot condition, told before the call, every order ends with that slot justified, the agreed finality, and the stored table raised by the votes accepted at either time |
| `OrderMatters.DecidersForced` | crates/protocol/src/state.rs:795-804 | if every order ends alike with one slot justified, each vote that could complete the two thirds finalizes what the outcome has |
| `OrderMatters.TouchesForced` | crates/protocol/src/state.rs:760-783 | then each vote for another root accepted before or after repeats a mark that stands in any case, in a row short of two thirds |
| `OrderMatters.SharedMarkForced` | crates/protocol/src/state.rs:760-792 | and each vote for another slot with the same root, accepted at first, repeats a stored mark |
| `OrderMatters.SharedRefused` | crates/protocol/src/state.rs:760-792 | and is refused once the slot is justified |
| `OrderMatters.OneOutcomeIff` | crates/protocol/src/state.rs:740-804 | in-range votes justify one slot with one outcome in every order exactly when the condition holds |
| `OrderMatters.BlockHasOwnRoot` | crates/protocol/src/state.rs:504-525 | a slot that holds a block shares its root with no other slot, so no accepted vote shares it |
| `OrderMatters.OrderIrrelevantIff` | crates/protocol/src/state.rs:740-812 | on reachable states in-range votes give one outcome in every order exactly when they justify nothing or settle one slot under the condition |
| `OrderMatters.OneSlotOrderShows` | crates/protocol/src/state.rs:795-804 | two votes that justify one and the same slot finalize differently in the two orders |
| `OrderIndependence.OrderShows` | crates/protocol/src/state.rs:700-713 | on a state that satisfies the chain invariant, two votes that justify end differently in the two orders |
| `Ghost.MinBlockRoot` | crates/forkchoice/src/helpers.rs:133-138 | the least (slot, root) block, none exactly when there are no blocks |
| `Ghost.Accumulate` | crates/forkchoice/src/helpers.rs:86-101 | over any acyclic block map each block gets the number of votes whose walk visits it; fails exactly at a missing parent |
| `Ghost.FilterChildren` | crates/forkchoice/src/helpers.rs:105-113 | lists exactly the blocks at or above the threshold under their parents |
| `Ghost.MaxChild` | crates/forkchoice/src/helpers.rs:121-125 | the child that beats all others by (weight, root) |
| `Ghost.GetForkChoiceHead` | crates/forkchoice/src/helpers.rs:65-129 | over any acyclic block map, the greedy descent by visits, each error exactly when it applies; recursive GHOST when parents sit at lower slots |
| `Ghost.GreedyEndUnique` | crates/forkchoice/src/helpers.rs:105-128 | the descent has one end, so the order in which maps are read does not show |
| `Ghost.GreedyIsDescend` | crates/forkchoice/src/helpers.rs:86-128 | with parents at lower slots the descent is recursive GHOST over supporter sets |
| `Ghost.DescendReaches` | crates/forkchoice/src/helpers.rs:120-128 | the head descends from the start, and with threshold 0 is a leaf |
| `ForkChoiceRule.HeadRule` | crates/forkchoice/src/store.rs:679-718 | after a refresh or a promotion the head is a leaf under the justified block, and each child taken on the way has at least as many voters under it as any sibling, ties going to the larger root |
| `ForkChoiceRule.HeaviestIsUnique` | crates/forkchoice/src/helpers.rs:103-130 | only one block meets that rule |
| `SafeTarget.WeightAntitone` | crates/forkchoice/src/helpers.rs:86-101 | an ancestor weighs at least as much as a descendant |
| `SafeTarget.QualifyingChain` | crates/forkchoice/src/store.rs:693-705 | blocks with two thirds of at most n voters lie on one ancestry chain |
| `SafeTarget.DescendDeepest` | crates/forkchoice/src/store.rs:693-705 | the descent ends at the deepest qualifying block under its start, or at the start |
| `SafeTarget.TieBreakIrrelevant` | crates/forkchoice/src/store.rs:693-705 | any way of choosing qualifying children ends at the same block |
| `ForkChoiceRule.SafeRule` | crates/forkchoice/src/store.rs:693-704 | the safe target is the justified block or has 3w >= 2n of pending voters under it, and every block under the justified one with 3w >= 2n is its ancestor or itself |
| `Sealing.SealedRoot` | crates/protocol/src/state.rs:391-423 | after any number of slots the header's root is the root of the block that left it |
| `Sealing.TransitionSeals` | crates/protocol/src/state.rs:838-860 | a checked transition leaves a state its block commits to |
| `Sealing.ChildHeaderAcceptedIff` | crates/protocol/src/state.rs:450-482 | a later child is accepted exactly when it names that block, has the round-robin proposer and fits the history limit |
| `StoreInvariant.SoundHashesExist` | crates/protocol/src/block.rs:160-171 | functions whose roots fit in 32 bytes meet the hash assumptions |
| `StoreInvariant.GenesisStoreInvariant` | crates/forkchoice/src/store.rs:91-102 | a genesis pair seeds a store that satisfies the store invariant |
| `StoreInvariant.AnchorInvariant` | crates/forkchoice/src/store.rs:138-189 | so does a trusted head with both checkpoints at the anchor |
| `StoreInvariant.HeadSelectionTotal` | crates/forkchoice/src/store.rs:713-718 | on such a store head selection never misses a parent, for any votes |
| `StoreInvariant.TickKeepsInvariant` | crates/forkchoice/src/store.rs:342-355 | a tick fails exactly on clock overflow and keeps the invariant |
| `StoreInvariant.AcceptKeepsInvariant` | crates/forkchoice/src/store.rs:679-683 | promoting votes keeps the invariant |
| `StoreInvariant.AttestKeepsInvariant` | crates/forkchoice/src/store.rs:568-592 | an accepted attestation keeps the invariant |
| `StoreInvariant.TrackKeepsInvariant` | crates/forkchoice/src/store.rs:740-766 | a transition-produced block is always tracked, once, and keeps the invariant |
| `StoreInvariant.StoreRunInvariant` | crates/forkchoice/src/store.rs:303-766 | over every run head, safe target and checkpoints stay tracked, blocks and states only grow, checkpoint slots never drop |
| `StoreInvariant.StoreRunTotal` | crates/forkchoice/src/store.rs:342-766 | from a sound store every sequence of operations can be carried out |
| `StoreRule.ClockCountsTicks` | crates/forkchoice/src/store.rs:342-355 | over every run the clock has moved by the number of ticks, stopping at the largest `u64` |
| `StoreRule.AnchorClock` | crates/forkchoice/src/store.rs:149-189 | a store seeded from a block of slot k starts at four times k, and every run adds its ticks |
| `StoreRule.SeededStore` | crates/forkchoice/src/store.rs:149-189 | a seeded store holds its anchor pair and nothing else |
| `StoreRule.TrackedBlock` | crates/forkchoice/src/store.rs:740-766 | a block is refused for a wrong state root or an untracked parent, a known one changes nothing, a new one is added, and a checkpoint follows exactly when it is later and tracked |
| `StoreInvariant.SafeTargetIsDeepest` | crates/forkchoice/src/store.rs:693-705 | the refreshed safe target is the deepest two-thirds block under the justified root, or that root |
| `ForkHistory.AnchorHistory` | crates/forkchoice/src/store.rs:138-189 | a trusted anchor starts with history and tree in step |
| `ForkHistory.GenesisHistory` | crates/forkchoice/src/store.rs:91-102 | so does a genesis store |
| `ForkHistory.TransitionHistory` | crates/protocol/src/state.rs:484-537 | a transition adds to history only its parent's root and empty entries |
| `ForkHistory.RunHistory` | crates/forkchoice/src/store.rs:740-966 | over every run each state's history lists its block's ancestors, and the store's checkpoints are the highest of any tracked state and come from one |
| `ForkHistory.CheckpointsOnAncestry` | crates/forkchoice/src/store.rs:951-966 | a tracked state's checkpoints at or above the anchor are ancestors of its block |
| `VotePools.AcceptedVoteIsSound` | crates/forkchoice/src/store.rs:419-490 | validation passes exactly when all three checkpoints are tracked at their slots, in order, and the vote is at most one slot ahead |
| `StoreRule.VoteTakenIff` | crates/forkchoice/src/store.rs:419-490 | the same with the genesis placeholder written out |
| `StoreRule.FirstVoteError` | crates/forkchoice/src/store.rs:419-490 | which error a refused vote gets when several apply |
| `StoreRule.FiledVote` | crates/forkchoice/src/store.rs:568-592 | for each validator, exactly what is known and what is pending after a vote, and which votes are refused |
| `StoreRule.GenesisVoteTaken` | crates/forkchoice/src/store.rs:635-651 | a genesis store takes the placeholder vote of every registered validator |
| `VotePools.AttestationEffect` | crates/forkchoice/src/store.rs:568-592 | the flag says whether a pool changed; no known slot drops; nothing else changes |
| `VotePools.AttestationIdempotent` | crates/forkchoice/src/store.rs:568-592 | the same attestation again changes nothing |
| `VotePools.PromotionDropsIff` | crates/forkchoice/src/store.rs:679-683 | promotion lowers a known slot exactly when an older vote is pending |
| `VotePools.KnownFallsIff` | crates/forkchoice/src/store.rs:342-355 | one store operation takes a known slot below a floor exactly when it promotes an older pending vote |
| `VotePools.LowPendingArisesIff` | crates/forkchoice/src/store.rs:568-592 | a pending vote below a floor appears exactly by an accepted gossip vote while none of that validator is pending |
| `VotePools.FallNeedsLowGossip` | crates/forkchoice/src/store.rs:568-683 | over every run, a known slot falls below a floor only after an older gossip vote was accepted and later promoted |
| `VotePools.OnChainVoteHolds` | crates/forkchoice/src/store.rs:579-583 | an on-chain vote holds the known slot up over every run in which no older gossip vote of that validator is accepted |
| `VotePools.OlderGossipReplacesOnChainVote` | crates/forkchoice/src/store.rs:587-591 | from a genesis store, an on-chain vote, an older gossip vote and a promotion leave the older one known |
| `VotePools.SlotCycle` | crates/forkchoice/src/store.rs:342-355 | over the four ticks of a slot the safe target is refreshed from the pending votes, then those are promoted and the head follows |
| `VoteTarget.TargetProperties` | crates/forkchoice/src/store.rs:868-904 | the two walks end on the head's ancestry, and at a justifiable slot at or above finality when the finalized block is on it |
| `VoteTarget.JustifiableWalkIff` | crates/forkchoice/src/store.rs:888-903 | the second walk ends at a justifiable slot exactly when some ancestor is at one |
| `VoteTarget.StoreParents` | crates/forkchoice/src/store.rs:909-915 | on a reachable store no walk above finality misses a parent |
| `ForkChoiceRule.TargetRule` | crates/forkchoice/src/store.rs:868-904 | following parents from the head: the first of it and three ancestors at or below the later of safe target and finality, or the third, and from there the first block at or below finality or at a justifiable distance |
| `ForkChoiceRule.TargetPathIsUnique` | crates/forkchoice/src/store.rs:868-904 | that rule names one block |
| `Production.CandidateReplays` | crates/forkchoice/src/production.rs:149-175 | a candidate completed with its state root replays on the head state to the same post-state |
| `Production.CandidateIff` | crates/forkchoice/src/production.rs:321-356 | over any tracked head a candidate succeeds exactly when the validator may propose and every vote fits below its slot |
| `Convergence.FoldedCandidateIff` | crates/forkchoice/src/production.rs:127-144 | over votes the loop can collect, a candidate fails exactly when the validator may not propose or a target is at or past the slot |
| `Convergence.CapNeverCuts` | crates/forkchoice/src/production.rs:288-305 | on a valid store the attestation cap never cuts a pooled vote |
| `Convergence.ConvergedHasNoLateVote` | crates/forkchoice/src/production.rs:127-144 | a converged list proves that the validator may propose and that no pooled vote from the final justified checkpoint targets the slot or later |
| `Convergence.EachVoteCameIn` | crates/forkchoice/src/production.rs:127-144 | each collected vote is pooled, has a tracked target, and its source is the justified checkpoint of the candidate over the votes before its round |
| `LiveStore.StoreObject.FromAnchor` | crates/forkchoice/src/store.rs:91-102 | each error exactly when it applies, the seeded fields otherwise; a genesis pair gives a sound store, the clock at four times the slot |
| `LiveStore.StoreObject.FromTrustedHead` | crates/forkchoice/src/store.rs:138-189 | the same with both checkpoints at the anchor |
| `LiveStore.StoreObject.TickInterval` | crates/forkchoice/src/store.rs:342-355 | the clock and the phase action, failing only on overflow and then unchanged |
| `LiveStore.StoreObject.ProcessAttestation` | crates/forkchoice/src/store.rs:568-592 | the pools after the call, or the error and no change |
| `LiveStore.StoreObject.UpdateHead` | crates/forkchoice/src/store.rs:713-718 | the head by recursive GHOST from the justified root; never fails on a reachable store; the head is the heaviest leaf under the justified block by the known votes |
| `LiveStore.StoreObject.AcceptNewVotes` | crates/forkchoice/src/store.rs:679-683 | promotion and head refresh never fail on a reachable store |
| `LiveStore.StoreObject.UpdateSafeTarget` | crates/forkchoice/src/store.rs:693-705 | the refresh never fails on a reachable store; the target is the lowest block with 3w >= 2n of pending voters |
| `LiveStore.StoreObject.TrackBlock` | crates/forkchoice/src/store.rs:740-766 | the store after the call for any block, and soundness kept for a transition-produced one |
| `LiveStore.StoreObject.GetProposalHead` | crates/forkchoice/src/store.rs:779-782 | the head after promotion |
| `LiveStore.StoreObject.GetVoteTarget` | crates/forkchoice/src/store.rs:868-915 | always succeeds on a reachable store, with the properties of the two walks; the target ends the one path the rule allows |
| `LiveStore.StoreObject.ProduceAttestationVote` | crates/forkchoice/src/production.rs:190-215 | head, target and source are tracked at their slots, the target on the head's ancestry, and the exact condition under which the vote passes validation |
| `LiveStore.StoreObject.OwnVoteAcceptedIff` | crates/forkchoice/src/store.rs:419-490 | a store accepts its own vote exactly when the justified slot is not past the target's and the vote is at most one slot ahead |
| `LiveStore.StoreObject.CollectIncludableVotes` | crates/forkchoice/src/production.rs:288-305 | distinct includable votes within the cap, all of them when the cap is not reached |
| `LiveStore.StoreObject.ConvergeAttestations` | crates/forkchoice/src/production.rs:127-144 | terminates; the votes are what rounds over successful candidates collect, and leave out only votes with an untracked target, another source, or cut by the cap; an error is that of such a list |
| `LiveStore.StoreObject.ProduceBlock` | crates/forkchoice/src/production.rs:96-175 | the block replays on the head's state to the returned post-state and is tracked; success and failure are tied to the right to propose and to votes whose target is too late; an error leaves only the promotion |
| `StoreExamples.ProposerCannotBuild` | crates/forkchoice/src/production.rs:127-144 | a run from genesis after which the validator of the slot may propose, and no list the loop can collect ends in a block |
| `StoreExamples.OwnVoteRefused` | crates/forkchoice/src/store.rs:832-838 | a run from genesis after which the composed vote has its target below its source and validation refuses it, with the clock in range |
| `Ssz.EncodeFixedList` | crates/ssz/src/lists.rs:34-38 | appends the concatenated encodings |
| `Ssz.ReadFixedList` | crates/ssz/src/lists.rs:46-72 | the element loop computes `DecodeFixedList`, errors included |
| `Ssz.FixedListRoundTrip` | crates/ssz/src/lists.rs:34-72 | decoding an encoded list gives it back exactly when it is within the limit |
| `Ssz.FixedListIsCanonical` | crates/ssz/src/lists.rs:46-72 | accepted bytes are the encoding of what they decode to |
| `Ssz.EncodeVariableList` | crates/ssz/src/lists.rs:130-160 | reserving and patching the table appends the offset table and the payloads |
| `Ssz.ReadVariableList` | crates/ssz/src/lists.rs:171-225 | the offset loop and the window loop compute `DecodeVariableList`, errors included |
| `Ssz.VariableListRoundTrip` | crates/ssz/src/lists.rs:130-225 | decoding an encoded list gives it back exactly when it is within the limit |
| `Ssz.VariableListIsCanonical` | crates/ssz/src/lists.rs:171-225 | accepted bytes are the encoding of what they decode to, offsets within `u32` |
| `BlockCodec.AttestationsAreFaithful` | crates/protocol/src/vote.rs:163-199 | attestation bytes and attestations correspond one to one |
| `BlockCodec.BodyRoundTrip` | crates/protocol/src/block.rs:188-224 | a body comes back exactly when within the attestation limit |
| `BlockCodec.BodyIsCanonical` | crates/protocol/src/block.rs:204-224 | accepted body bytes re-encode to themselves |
| `BlockCodec.BlockRoundTrip` | crates/protocol/src/block.rs:257-306 | a block comes back exactly when its body does |
| `BlockCodec.BlockIsCanonical` | crates/protocol/src/block.rs:276-306 | accepted block bytes re-encode to themselves |
| `BlockCodec.MessageRoundTrip` | crates/protocol/src/block.rs:402-442 | the declared length is the real one, and the pair comes back exactly when within the limit |
| `BlockCodec.MessageIsCanonical` | crates/protocol/src/block.rs:418-442 | accepted bytes re-encode to themselves |
| `BlockCodec.SignedRoundTrip` | crates/protocol/src/block.rs:470-517 | a signed block comes back exactly when both lists are within limits, and is refused otherwise even where the offset saturates |
| `BlockCodec.SignedIsCanonical` | crates/protocol/src/block.rs:492-517 | accepted signed-block bytes re-encode to themselves |
| `BlockCodec.ResponseCodec` | crates/networking/src/messages.rs:231-264 | a by-root response comes back, and accepted response bytes re-encode to themselves |
| `WireLayout.AttestationLayout` | crates/protocol/src/vote.rs:163-199 | the byte offsets of every field of an attestation, integers little-endian, roots big-endian |
| `WireLayout.BlockLayout` | crates/protocol/src/block.rs:257-306 | the byte offsets of every field of a block, both offsets in it, and each attestation |
| `WireLayout.SignedLayout` | crates/protocol/src/block.rs:402-517 | the same for a signed block, its message and its signatures |
| `WireLayout.ListLayout` | crates/ssz/src/lists.rs:130-160 | where each item of a variable-width list says it starts, and that it lies there |
| `BlockCodec.SignedStreamRoundTrip` | crates/runtime/src/p2p/host/behaviour/codec.rs:188-223 | signed blocks streamed one frame each are all read back and decoded in order |
| `Frames.WriteUvarint` | crates/networking/src/frames.rs:112-123 | the loop writes the LEB128 bytes |
| `Frames.ReadUvarintOrEof` | crates/networking/src/frames.rs:127-146 | value and position, end of stream, truncation and overflow told apart |
| `Frames.UvarintRoundTrip` | crates/networking/src/frames.rs:112-146 | reading undoes writing for every `u64`, any suffix left unread |
| `Frames.ScanIsExact` | crates/networking/src/frames.rs:127-146 | whatever is accepted fits a `u64` and consumes between 1 byte and the input |
| `Frames.ReadSnappyChunk` | crates/networking/src/frames.rs:255-278 | one header and payload within the budget, or the error |
| `Frames.ReadSnappyFrameExact` | crates/networking/src/frames.rs:170-246 | the chunk loop ends, with the decoded bytes and position of `FrameBody` or its error |
| `Frames.BodyIsExact` | crates/networking/src/frames.rs:170-246 | success means exactly the declared length, within the input, independent of what follows |
| `Frames.ReadReqRespFrame` | crates/networking/src/frames.rs:91-104 | length, cap, then body; nothing consumed at a clean end |
| `Frames.WrittenFrameIsRead` | crates/networking/src/frames.rs:58-104 | the result of reading any written frame before any suffix, the failing payloads included |
| `Frames.DecodeFrames` | crates/runtime/src/p2p/host/behaviour/codec.rs:214-223 | the loop ends, and reads and decodes every frame of the stream or stops at the first bad one |
| `Frames.StreamRoundTrip` | crates/networking/src/frames.rs:9-13 | values written back to back, one frame each, are read back and decoded in order, then a clean end |
| `FrameGrammar.LengthIff` | crates/networking/src/frames.rs:127-146 | a length is read exactly from one to ten bytes with the high bit set on all but the last, the tenth at most 1, as the base-128 number they spell |
| `FrameGrammar.WrittenLength` | crates/networking/src/frames.rs:112-123 | the written length spells its value without a superfluous byte |
| `FrameGrammar.BodyIff` | crates/networking/src/frames.rs:170-312 | a body is read exactly when the bytes are chunks of the grammar, every data chunk beginning with the little-endian checksum of its decoded bytes, and gives their concatenation |
| `FrameGrammar.FrameIff` | crates/networking/src/frames.rs:91-104 | a frame is read exactly when it is such a length within the cap and such a body |
| `FrameGrammar.StreamIff` | crates/runtime/src/p2p/host/behaviour/codec.rs:214-223 | a stream decodes exactly when it is frames end to end whose payloads decode |
| `FrameGrammar.DamagedFrameFails` | crates/networking/src/frames.rs:280-301 | whichever checksum byte of a written frame is changed, the read fails with a checksum mismatch |
| `KeyState.SigningKey.Prepare` | crates/crypto/src/key_state.rs:125-169 | the loop ends, the window covers the epoch, and a refused request changes nothing |
| `KeyState.SigningKey.SignRaw` | crates/crypto/src/key_state.rs:184-214 | reuse refused first, then an unprepared epoch; only success moves the watermark |
| `KeyState.PrepareKeepsInvariant` | crates/crypto/src/key_state.rs:125-169 | prepare succeeds exactly for an active epoch not behind the window |
| `KeyState.SignsIff` | crates/crypto/src/key_state.rs:184-214 | signing succeeds exactly for an unused epoch in the window that the scheme signs, with each refusal named in order |
| `KeyState.PreparesLeast` | crates/crypto/src/key_state.rs:125-169 | the window is advanced as often as it takes to cover the epoch and no more |
| `KeyState.RestoresIff` | crates/crypto/src/record.rs:100-145 | which records are accepted, and the key each restores |
| `KeyState.RecordRoundTrip` | crates/crypto/src/record.rs:68-145 | a key's own record is accepted and restores its watermark and range |
| `KeyState.RestoredKey` | crates/crypto/src/record.rs:100-145 | every accepted record restores its watermark in a sound key |
| `KeyState.SignedEpochsIncrease` | crates/crypto/src/key_state.rs:125-214 | over any mix of prepare, advance, sign and reload the signed epochs strictly increase |
| `OneTimeGuard.StepKeepsInvariant` | crates/runtime/src/duties/ots_signer.rs:72-88 | start, stop, slide and sign keep every released epoch below the saved watermark and no key behind it |
| `OneTimeGuard.ReleasedEpochsIncrease` | crates/runtime/src/duties/ots_signer.rs:72-88 | in every run with stops and failed saves, released epochs strictly increase per validator, whatever the secret files hold |
| `OneTimeGuard.RestartRefusesIff` | crates/runtime/src/duties/signer.rs:305-325 | a start refuses exactly the epochs below the further of file and store |
| `OneTimeGuard.LoadsIff` | crates/runtime/src/duties/signer.rs:305-325 | a key loads exactly when no watermark is saved or it is of the same seed and range, and the record with the further index restores |
| `OneTimeGuard.BootsIff` | crates/runtime/src/duties/signer.rs:255-275 | a node comes up with a key for every secret file or not at all |
| `OneTimeGuard.SigningOutcome` | crates/runtime/src/duties/ots_signer.rs:72-88 | exactly when a signing signs, saves and releases, and what each leaves |
| `OneTimeGuard.SavedRunSignsOnce` | crates/runtime/src/duties/ots_signer.rs:72-88 | when every save succeeds, signed epochs strictly increase too |
| `OneTimeGuard.LostSaveSignsTwice` | crates/runtime/src/duties/ots_signer.rs:57-65 | a stop between signing and saving lets one epoch be signed twice and released once |

## Left out

- Ghost.GetForkChoiceHead: requires that parent links do not cycle, as the program does (they are hash links); that parents also sit at lower slots, which `track_block` does not check, is proved for blocks the state transition accepted.
- LiveStore.StoreObject.ProduceBlock: which votes are collected depends on the order in which a hash map is read, so failure is tied to a list the loop can reach and not to the pool alone.
- StoreInvariant.AnchorInvariant: covers a genesis pair and a trusted head; `from_anchor` on a later state may seed checkpoints that are not tracked, which the program documents as the reason for the other constructor.
- Quorum.ConflictingJustification: needs a header root to determine its slot, since a ballot names roots and slots separately; entries of empty slots have root zero and are excluded.
- BlockCodec.BlockRoundTrip: a `Root` is a number here, so the lemmas ask that roots be below 2^256; every 32-byte root is.
- Frames.WrittenFrameIsRead: the Snappy encoder is not modelled; its output is any split into non-empty blocks of at most 64 KiB whose compressed form is no longer than the block.
- OneTimeGuard.ReleasedEpochsIncrease: a failed save is taken to write nothing, and the public-key width check of key generation is not modelled.
- SHA-256, merkleization, CRC32C, Snappy compression and the leanSig scheme are parameters.
- Signature verification of attestations and blocks is not modelled; signatures are opaque.
- Vote weights and supporter counts are unbounded integers; both are bounded by the registry limit.
- `usize` is taken to be 64 bits wide, and failed memory allocation is not modelled.
- The byte codec of the full consensus state and of bitlists is not modelled.
- Hash-map iteration order appears as an arbitrary choice where the program iterates over a map.
- The node loop, peer-to-peer layer, HTTP interface, storage adapters, command line and configuration are not modelled; they would add input and output only.
