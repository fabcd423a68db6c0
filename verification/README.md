# Verified models of an Ethereum consensus client

Dafny models, with proofs, of the hard parts of a beacon-chain node: the fork-choice store, Casper
justification and finalization, shuffling and committees, the registry arithmetic, the port process that
talks to the peer-to-peer network, and the decoder of the Snappy framing format.

`dafny verify dfyconfig.toml` checks everything. Nothing here was executed against the client.

## What is modelled

* **One chain** (`BeaconChain`, `Chains`, `Finality`, `VoteAccounting`, `Justification`,
  `AccountableSafety`, `BeaconStateObject`, `Coding`).
  Slot processing, block headers, attestations and the weighing of justification and finalization are modelled
  in full; `None` is a transition that the specification calls invalid. The remaining stages of a block and
  of an epoch are uninterpreted functions of `Env` that may change the registry and everything else they
  own in any way. A run is any sequence of slots and blocks.
* **The store** (`ForkChoice`, `StoreRuns`, `StoreEffects`, `StoreHistory`, `StoreFinality`, `Weight`, `Head`,
  `StoreObject`, `Ticks`, `SoleValidator`). The four handlers step a store; runs are arbitrary sequences of calls, accepted or rejected.
* **Shuffle and registry** (`Shuffling`, `Committees`, `Withdrawals`, `ExitQueue`, `SquareRoot`, `Merkle`).
* **Port and sync** (`OutgoingRequests`, `IncomingRequests`, `SyncStatus`, `PortObjects`, `Fairness`). State
  machines over all interleavings of the server, the two pipes, the port's command loop and its goroutines.
* **Framing** (`Snappy`).
* `Primitives` and `Arithmetic` hold what the others share.

Code that updates fields in place is modelled by classes (`BeaconState`, `StoreCell`, `BeaconRegistry`,
`Registry`, `Libp2pPort`, `Listener`) and code that loops by methods with loops. Each method is tied by its
contract to a function on values, and the properties are proved about those functions.

Assumptions, all stated as predicates: hashes are collision free and never the zero root (`IdealHashes`,
`CollisionFree`; `Coding.IdealHashesExist` shows that such hashes exist); chains start at a trusted block
with its own post-state at an epoch boundary (`ValidOrigin`, for finality `GenesisOrigin`); what that block
names as its parent is older than itself (`ValidNetwork`). Signatures, committee lookup, aggregation bits and data availability are arbitrary
predicates. Constants are those of the mainnet preset, except where a result is about every slot length.

## Where code, specification and promise differ

* `get_head` needs the state of the justified checkpoint, which only attestations store. `Head.GetHead`
  states exactly when the lookup fails, and `SoleValidator.HeadCanFail` gives a run that ends in such a store.
  The client computes that state on demand instead (`lib/lambda_ethereum_consensus/fork_choice/head.ex`).
* `compute_pulled_up_tip` weighs a state that may not have passed the first slot of its epoch.
  `Finality.PullUpFailsExactly` states exactly when that fails, and `SoleValidator.PullUpCanFail` gives a block:
  only with at most one and a half increments of active stake, which is also where the floor in the total balance
  breaks the two-thirds rule (`AccountableSafety.FloorExact`).
* The client sums participating balances without that floor. `AccountableSafety.ClientFloorExact` states
  exactly when its test still gives the specified answer.
* In `filter_block_tree` the extra check for a justified previous epoch never changes the answer
  (`Head.PulledUpCheckRedundant`).
* The client's `on_tick` leaves the genesis time out of its catch-up times. `Ticks.ClientTickExactly`
  states exactly when it still agrees with the specified tick; `Ticks.ClientTickMissesEpoch` gives a
  failing case and `Ticks.ClientTickWithinOneSlot` shows that ticks that skip no slot are unaffected.
* The client's first third of a slot is the attesting interval exactly when three divides the slot length
  (`Ticks.FirstThirdIsInterval`), which Gnosis's five seconds do not meet.
* `SyncBlocks.run` returns a negative total when the head is ahead of the clock, because the range then
  counts down (`SyncStatus.RunSyncExactly`).
* `blocks_remaining` is wrong after a sync that starts with slots outstanding.
  `SyncStatus.CountRightExactly` states exactly when it is right, `SyncStatus.LateResyncMiscounts` gives a
  failing run, and `SyncStatus.OrderlyIsClean` shows that the intended order of messages rules it out.
* A payload chunk of fewer than four bytes makes the Snappy decoder crash instead of returning an error.
  `Snappy.CrashesExactly` states exactly when, and `Snappy.EmptyChunkCrashes` gives an input.

## Model

| member | source | states |
|---|---|---|
| Chains.JustificationIgnoresCaching | docs/specs/beacon-chain.md:2116-2125 | writing the roots of a slot never touches a cell of the ring that weighing reads |
| Chains.JustificationTotal | docs/specs/beacon-chain.md:2277-2288 | weighing at the end of an epoch never asks for a root outside the window |
| Chains.JustificationOnChain | docs/specs/beacon-chain.md:2293-2328 | weighing, at an epoch's end or on a pulled-up tip, only names blocks of the state's own chain |
| Chains.AdvanceSlotInvariant | docs/specs/beacon-chain.md:2105-2125 | passing a slot keeps headers linked, ring and parent walk in agreement, and checkpoints on the chain |
| Chains.ApplyBlockInvariant | docs/specs/beacon-chain.md:2715-2731 | applying a block keeps the same invariant for the chain with that block |
| Chains.RunInvariant | docs/specs/beacon-chain.md:2083-2125 | every state of every run meets the invariant |
| Chains.RingIsAncestorWalk | docs/specs/beacon-chain.md:1407-1412 | inside the window `get_block_root_at_slot` gives the block that walking the parents gives |
| Chains.HeaderAcceptedExactly | docs/specs/beacon-chain.md:2715-2731 | in every run a header is accepted exactly if it is for the current slot, later than the tip of the chain, and names the tip as its parent; the proposer is checked in the uninterpreted stage that follows |
| Finality.WeighingKeepsStanding | docs/specs/beacon-chain.md:2293-2328 | each of the four rules finalizes only a justified checkpoint that starts a supermajority link one or two epochs long, with the epoch between justified |
| Finality.PassingIsLink | docs/specs/beacon-chain.md:2277-2288 | flagged participants that pass the two-thirds test are one supermajority link from the source in force to the chain's own checkpoint |
| Finality.FlagsExactly | docs/specs/beacon-chain.md:1647-1672 | from genesis or an anchor, for votes not older than it: the target flag means that the vote names the chain's own checkpoint, the head flag that it also names the chain's block of its slot one slot later, and the source is the one in force |
| Finality.LedgerGrows | docs/specs/beacon-chain.md:2083-2125 | links and justified checkpoints survive every further slot and block |
| Finality.RunFinality | docs/specs/beacon-chain.md:2293-2328 | in every state of every run from genesis all counted target votes of an epoch name the same source, and bits and checkpoints are backed by links |
| Finality.CheckpointsBacked | docs/specs/beacon-chain.md:2293-2328 | finalized <= previous justified <= current justified <= current epoch, all reached from genesis by links, the finalized one the source of a further link |
| Finality.FinalityNeverFalls | docs/specs/beacon-chain.md:2293-2328 | over every run none of the three checkpoints falls |
| Finality.FirstSlotUnflagged | docs/specs/beacon-chain.md:1647-1672 | in the first slot of an epoch no vote for that epoch is counted, with or without a block in it |
| Finality.PullUpFailsExactly | docs/specs/fork-choice.md:629-641 | from genesis or an epoch-boundary anchor, pulling up a state fails exactly in the first slot of an epoch with active stake of at most one and a half increments |
| VoteAccounting.AcceptedExactly | docs/specs/beacon-chain.md:2860-2875 | an attestation is accepted exactly for the current or previous epoch, in a slot of it that has passed, valid, from known validators, with the source in force |
| VoteAccounting.BlockVotes | docs/specs/beacon-chain.md:2882-2886 | after a block a validator has each of the three flags, for either epoch, exactly if it had it before or an included vote of it earns it by target root, block root of its slot and inclusion delay |
| VoteAccounting.SlotFlags | docs/specs/beacon-chain.md:2596-2598 | flags stay until the epoch turns; then those of the current epoch become those of the previous one, and none is left of the current |
| VoteAccounting.EarnsOnChain | docs/specs/beacon-chain.md:1647-1672 | on the chain of every run a vote earns the target flag exactly if it names the chain's own checkpoint, and the head flag exactly if it also names the chain's block of its slot, one slot later |
| VoteAccounting.ParticipationIsRecord | docs/specs/beacon-chain.md:2860-2886 | over every run the flags of both epochs are exactly the votes included by its blocks, each judged in the state its block was applied to |
| VoteAccounting.HonestExactly | docs/specs/beacon-chain.md:1064-1074 | two votes are slashable in no order exactly if they are equal, or aim at different epochs without one spanning the other |
| VoteAccounting.HonestVotersSafe | docs/specs/beacon-chain.md:1064-1074 | whoever votes for ever later targets from no earlier sources is never slashable |
| Justification.WeighsExactly | docs/specs/beacon-chain.md:2293-2328 | for every run from genesis, with the counted voters given member by member: the current epoch's own checkpoint is justified exactly by two thirds of the floored active stake, else the previous epoch's by the same test, else nothing; bits and finalized checkpoint follow exactly |
| Justification.TwoThirdsJustify | docs/specs/beacon-chain.md:2277-2288 | in every slot but an epoch's first, unslashed active validators flagged for the target with two thirds of the stake are enough to justify the current epoch |
| Justification.VotesDecide | docs/specs/beacon-chain.md:1630-1641 | the same from the votes that blocks include: an epoch is justified exactly if the unslashed active validators of whom the chain includes a vote for its checkpoint carry two thirds of the active stake |
| SoleValidator.PullUpCanFail | docs/specs/fork-choice.md:753-808 | a block of a valid network with one active validator that passes every check and the whole state transition, and is rejected because its post-state cannot be pulled up |
| AccountableSafety.FloorExact | docs/specs/beacon-chain.md:1503-1509 | passing the weighing means two thirds of the stake exactly above one and a half increments |
| AccountableSafety.ClientFloorExact | lib/lambda_ethereum_consensus/state_transition/epoch_processing.ex:347-362 | the client's test without the floor on the votes gives the specified answer for all votes exactly above one and a half increments |
| AccountableSafety.QuorumsIntersect | docs/specs/beacon-chain.md:2306-2313 | two quorums share a third of the stake |
| AccountableSafety.ConflictingLinks | docs/specs/beacon-chain.md:1064-1074 | links with one target epoch and two targets, or one around the other, make a third of the stake slashable |
| AccountableSafety.SharedAncestors | docs/specs/fork-choice.md:215-219 | chains that share a root share all blocks before it |
| AccountableSafety.FinalizedPersists | docs/specs/beacon-chain.md:2293-2328 | a checkpoint finalized on one chain lies on every chain that justifies a later one, or a third is slashable |
| AccountableSafety.ConflictIsAccountable | docs/specs/beacon-chain.md:1064-1074 | accountable safety for any two finalized checkpoints of two chains |
| AccountableSafety.AccountableSafetyOfChains | docs/specs/beacon-chain.md:1064-1074 | if the states of two runs finalize checkpoints neither of which descends from the other, a third of the stake signed votes that `is_slashable_attestation_data` flags in some order |
| StoreFinality.SoundRun | docs/specs/fork-choice.md:753-808 | every run of calls keeps the justified and finalized checkpoints of the store, realized or not, backed by votes on stored chains, and the finalized ones not later than the justified |
| StoreFinality.FinalizedInOrder | docs/specs/beacon-chain.md:1064-1074 | of two checkpoints finalized by votes in one store the later descends from the earlier, or a third of the stake is slashable |
| StoreFinality.JustifiedAboveFinalized | docs/specs/beacon-chain.md:2293-2328 | a checkpoint justified by votes in a store descends from every one finalized there that is not later, or a third of the stake is slashable |
| StoreFinality.FinalizedOnlyDescends | docs/specs/fork-choice.md:394-421 | along any run from genesis the finalized checkpoint only moves to a descendant of itself, brought by a block or pulled up by a tick, and the justified one descends from it, or a third of the stake is slashable |
| StoreFinality.HeadNeverReverts | docs/specs/fork-choice.md:374-388 | whatever `get_head` returns later, a leaf that passes the finalized check or the justified root, descends from every earlier finalized checkpoint, or a third of the stake is slashable |
| SoleValidator.EnoughStakeNetwork | docs/specs/beacon-chain.md:1503-1509 | a network with stake that meets everything these results assume, in every store it reaches within 64-bit epochs |
| BeaconStateObject.BeaconState.BlockRootOf | docs/specs/beacon-chain.md:1397-1412 | the root in the ring, or failure exactly outside the window |
| BeaconStateObject.BeaconState.ShiftBits | docs/specs/beacon-chain.md:2304-2305 | the bits move up by one and the first is cleared |
| BeaconStateObject.BeaconState.JustifyInPlace | docs/specs/beacon-chain.md:2302-2313 | rotating, shifting and marking in place is the justification step on values, failing in the same cases |
| BeaconStateObject.BeaconState.FinalizeInPlace | docs/specs/beacon-chain.md:2315-2328 | the four overwriting rules give the result of their order of precedence |
| BeaconStateObject.BeaconState.WeighInPlace | docs/specs/beacon-chain.md:2293-2328 | the whole weighing in place is the one on values |
| BeaconStateObject.BeaconState.PullUp | docs/specs/beacon-chain.md:2277-2288 | participants and floored balances are computed as specified, and weighed |
| BeaconStateObject.BeaconState.CacheRoots | docs/specs/beacon-chain.md:2116-2125 | the state root goes into an unfinished header only, the block root into the ring cell of the slot and no other |
| BeaconStateObject.BeaconState.EpochInPlace | docs/specs/beacon-chain.md:2596-2598 | weighing comes first, then the participation flags rotate and are cleared |
| BeaconStateObject.BeaconState.NextSlotInPlace | docs/specs/beacon-chain.md:2107-2112 | one turn of the loop is one slot on values |
| BeaconStateObject.BeaconState.SlotsInPlace | docs/specs/beacon-chain.md:2105-2112 | the loop terminates in the state that the recursive definition gives, and rejects a slot that is not later |
| BeaconStateObject.BeaconState.MarkAttesters | docs/specs/beacon-chain.md:2876-2886 | exactly the attesters get the flags added, in the participation of one epoch |
| BeaconStateObject.BeaconState.AttestInPlace | docs/specs/beacon-chain.md:2860-2886 | attestations are accepted and recorded in the same cases as on values |
| ForkChoice.SlotTimeExact | docs/specs/fork-choice.md:187-195 | the catch-up time of a slot lies in that slot |
| StoreRuns.AncestorOnChain | docs/specs/fork-choice.md:215-219 | from the anchor's slot up `get_ancestor` misses no key and gives the block of the block's own chain |
| StoreRuns.NoAncestorBelowAnchor | docs/specs/fork-choice.md:215-219 | below the anchor it always ends in a missing key |
| StoreRuns.TransitionReplays | docs/specs/beacon-chain.md:2083-2094 | a state transition extends the run of its pre-state by slots and one block |
| StoreRuns.InitialInvariant | docs/specs/fork-choice.md:161-181 | the initial store meets the store invariant |
| StoreRuns.TickKeeps | docs/specs/fork-choice.md:740-747 | a tick keeps the invariant and touches neither blocks nor states |
| StoreRuns.BlockKeeps | docs/specs/fork-choice.md:753-808 | an accepted block keeps the invariant: its state replays its chain, and what it justifies or finalizes, now or pulled up, is stored |
| StoreRuns.AttestationKeeps | docs/specs/fork-choice.md:814-831 | an accepted attestation keeps the invariant: its target and its vote are stored |
| StoreRuns.SlashingKeeps | docs/specs/fork-choice.md:839-853 | an accepted slashing keeps the invariant |
| StoreRuns.ReachableStore | docs/specs/fork-choice.md:161-181 | in every reachable store each non-anchor block has its parent stored at a lower slot, each state replays its chain, and every vote, boost and checkpoint root is stored |
| StoreRuns.RunNeverLowers | docs/specs/fork-choice.md:394-421 | no run lowers a checkpoint or a latest-message epoch, drops a block or forgets an equivocator |
| StoreRuns.RingMatchesTree | docs/specs/beacon-chain.md:1407-1412 | for every stored block the ring of its post-state gives what `get_ancestor` gives |
| StoreEffects.TickEffects | docs/specs/fork-choice.md:740-747 | a tick is accepted exactly from genesis on, clears the boost exactly in a later slot, raises both checkpoints to the unrealized ones exactly in a later epoch, and changes nothing else |
| StoreEffects.BlockAcceptedExactly | docs/specs/fork-choice.md:753-785 | in every reachable store, by clock and chain: exactly which blocks are accepted |
| StoreEffects.BlockEffects | docs/specs/fork-choice.md:786-808 | all that an accepted block changes: the checkpoints become the first of the latest among the old ones, those of the post-state and, exactly if the clock has left the block's epoch, the pulled-up ones; the boost goes to a block within four seconds of its slot if nobody has it |
| StoreEffects.VoteAcceptedExactly | docs/specs/fork-choice.md:685-711 | by clock and chain, exactly which attestations are accepted, and against which state they are checked |
| StoreEffects.VoteEffects | docs/specs/fork-choice.md:726-732 | exactly the attesters not known to equivocate who had no vote or an older one get the new one; every other entry stays |
| StoreEffects.SlashingExactly | docs/specs/fork-choice.md:839-853 | exactly which pairs of votes are accepted as proof, and that exactly those in both are added |
| StoreHistory.LatestIsHighest | docs/specs/fork-choice.md:726-732 | over every run a validator has a latest message exactly if a vote of it was accepted before it was known to equivocate, and it is the one of the highest target epoch among those, the first of equals |
| StoreHistory.EquivocatorsExactly | docs/specs/fork-choice.md:839-853 | over every run known to equivocate are exactly those that an accepted slashing shows in both of its votes |
| StoreHistory.TipsRealized | docs/specs/fork-choice.md:629-641 | over every run, for every stored block: what its state justifies and finalizes is realized, its recorded checkpoint is the weighed one, and both weighed ones are realized whenever the clock is past its epoch |
| StoreHistory.ViableExactly | docs/specs/fork-choice.md:318-352 | in every reachable store a block is a viable leaf exactly if it has no child, votes from the justified epoch or from one at most two back, and has the finalized block on its chain, with the weighed state as source once its epoch is over |
| Weight.AncestorTwice | docs/specs/fork-choice.md:215-219 | walking back in two stages is walking back at once |
| Weight.ChildTowards | docs/specs/fork-choice.md:215-219 | below every proper descendant there is a child on the way |
| Weight.ChildUnique | docs/specs/fork-choice.md:215-219 | no block lies below two children of one parent |
| Weight.PlacedOnce | docs/specs/fork-choice.md:259-274 | a weight counts for a block directly or through exactly one child |
| Weight.ScoreIsStake | docs/specs/fork-choice.md:253-264 | the votes for a block weigh what its active, unslashed, non-equivocating voters have at stake |
| Weight.BranchesShareStake | docs/specs/fork-choice.md:253-264 | the branches under one block together never weigh more than the active stake |
| Weight.BoostExactly | docs/specs/fork-choice.md:244-248 | the boost is the greatest amount within 40 percent of the greatest whole thirty-second part of the floored active stake |
| Weight.WeightInStake | docs/specs/fork-choice.md:253-274 | a block weighs what its voters have at stake, plus the boost exactly if the boosted block is at or below it |
| Weight.LeadBeatsBoost | docs/specs/fork-choice.md:259-274 | voters who lead by more than 40 percent of a thirty-second of the active stake outweigh any boost |
| Weight.WeightRecurrence | docs/fork_choice.md:54-54 | the weight of a block is what is placed on it, votes and boost, plus the sum of the weights of its children |
| Weight.ReachableWeight | docs/specs/fork-choice.md:253-274 | the recurrence holds of `get_weight` in every reachable store |
| Head.ViableThroughChild | docs/specs/fork-choice.md:302-354 | a viable leaf lies below a block exactly if it is one itself or one lies below a child |
| Head.PulledUpCheckRedundant | docs/specs/fork-choice.md:323-335 | the second check, for a justified previous epoch, never changes the answer of the first |
| Head.FilterChildren | docs/specs/fork-choice.md:304-316 | every child is searched, and what they add is exactly the viable blocks under them |
| Head.FilterBlockTree | docs/specs/fork-choice.md:302-354 | terminates, answers whether a viable leaf lies below, and adds exactly the blocks that lead to one |
| Head.Heaviest | docs/specs/fork-choice.md:386-388 | the maximum by weight, ties by the higher root |
| Head.ClientBestChild | lib/lambda_ethereum_consensus/fork_choice/head.ex:36-44 | sorting by falling root and taking the first of the greatest weight gives the same maximum |
| Head.WalkDown | docs/specs/fork-choice.md:374-388 | the loop terminates in the head |
| Head.GetHead | docs/specs/fork-choice.md:374-388 | returns a viable leaf of the whole store below the justified root on a path of heaviest viable children, or the justified root if nothing below is viable; fails exactly when the justified state is missing and a child is to be weighed |
| Head.HeadUnique | docs/specs/fork-choice.md:374-388 | these conditions leave no choice |
| Head.PathIsHeaviest | docs/specs/fork-choice.md:386-388 | on the way to the head every block outweighs each viable sibling, or equals it with the higher root |
| Head.LeadTakesHead | docs/specs/fork-choice.md:374-388 | a sibling whose voters trail by more than 40 percent of a thirty-second of the stake is never on the way to the head, whichever is boosted |
| Head.HeadDescendsFromFinalized | docs/specs/fork-choice.md:337-346 | past genesis the head descends from the finalized checkpoint |
| Head.ReachableHead | docs/specs/fork-choice.md:360-368 | every reachable store meets what `get_head` needs |
| Head.AnchorIsHead | docs/specs/fork-choice.md:161-181 | a new store stands at its anchor's slot with the anchor as both checkpoints and as its head |
| SoleValidator.HeadCanFail | docs/specs/fork-choice.md:374-388 | a run of a valid network with one active validator, from genesis, reaches a store for which `get_head` fails: two ticks and one block |
| StoreObject.StoreCell.RaiseCheckpoints | docs/specs/fork-choice.md:394-404 | each checkpoint is replaced exactly by one of a later epoch |
| StoreObject.StoreCell.TickPerSlot | docs/specs/fork-choice.md:649-663 | one tick in place is the one on values |
| StoreObject.StoreCell.TickTo | docs/specs/fork-choice.md:740-747 | the loop terminates in the ticked store; a time before genesis is rejected without a change |
| StoreObject.StoreCell.InsertBlock | docs/specs/fork-choice.md:788-802 | block, state, timeliness and boost are recorded as on values |
| StoreObject.StoreCell.RecordPulledUp | docs/specs/fork-choice.md:634-641 | unrealized checkpoints rise, and realized ones for a block of a past epoch |
| StoreObject.StoreCell.AcceptBlock | docs/specs/fork-choice.md:753-808 | accepts the same blocks as on values, with the same store, and changes nothing otherwise |
| StoreObject.StoreCell.RecordVotes | docs/specs/fork-choice.md:726-732 | the loop over attesters replaces exactly the older votes of validators not known to equivocate |
| StoreObject.StoreCell.AcceptAttestation | docs/specs/fork-choice.md:814-831 | accepts the same attestations as on values, with the same store, and changes nothing otherwise |
| StoreObject.StoreCell.AcceptSlashing | docs/specs/fork-choice.md:839-853 | adds exactly the common attesters of a valid slashing |
| Ticks.TickIsMove | docs/specs/fork-choice.md:740-747 | however far behind, a tick is one move: a later slot clears the boost, a later epoch pulls up once |
| Ticks.TickPathExactly | docs/specs/fork-choice.md:740-747 | for any three times, exactly when ticking through an intermediate time makes a difference |
| Ticks.TickPathIndependent | docs/specs/fork-choice.md:740-747 | ticking forward to t1 and then t2 is ticking to t2 |
| Ticks.ClientTickIsMove | lib/lambda_ethereum_consensus/fork_choice/handlers.ex:38-50 | the client's tick in closed form for every time, with its catch-up times that lack the genesis time |
| Ticks.ClientTickExactly | lib/lambda_ethereum_consensus/fork_choice/handlers.ex:38-50 | it agrees with the specified tick exactly when both pull up, neither does, or there is nothing to pull up |
| Ticks.ClientTickWithinOneSlot | lib/lambda_ethereum_consensus/fork_choice/handlers.ex:38-50 | ticks that skip no slot agree |
| Ticks.ClientTickMissesEpoch | lib/lambda_ethereum_consensus/fork_choice/handlers.ex:38-50 | on mainnet a tick from slot 31 to 33 with something to pull up does not |
| Ticks.ComputeSlotExact | lib/libp2p_port.ex:869-885 | for every slot length the slot counted in thirds is the plain quotient, and the third is that of the slot's seconds |
| Ticks.ClockMatchesStore | lib/libp2p_port.ex:814-838 | after every tick the server's slot is the store's current slot |
| Ticks.FirstThirdIsInterval | docs/specs/fork-choice.md:794-796 | the first third is the attesting interval exactly when three divides the slot length |
| Shuffling.RoundInvolution | docs/specs/beacon-chain.md:1187-1198 | every round undoes itself |
| Shuffling.TradesExactly | docs/specs/beacon-chain.md:1187-1198 | two places that add up to the pivot, modulo the count, trade exactly if the digest bit of the higher one is set |
| Shuffling.ShuffleBijective | docs/specs/beacon-chain.md:1179-1200 | for every seed and count the shuffle is a bijection with the reversed rounds as inverse |
| Shuffling.OneRound | docs/specs/beacon-chain.md:1187-1198 | one turn of the loop is one round, and fails exactly when its position does not fit |
| Shuffling.ComputeShuffledIndex | docs/specs/beacon-chain.md:1179-1200 | the loop gives the shuffled index, and fails exactly for an index out of range or a position on its way that does not fit in 32 bits |
| Shuffling.AlwaysFits | docs/specs/beacon-chain.md:299-299 | up to the registry limit every position on the way of every index fits |
| Shuffling.PositionFitsExactly | docs/specs/beacon-chain.md:299-299 | no position overflows 32 bits exactly up to the registry limit |
| Shuffling.SwapMirrored | lib/lambda_ethereum_consensus/state_transition/shuffling.ex:57-145 | swapping mirrored pairs with a digest and byte kept between positions places every element by the bit of its own higher position |
| Shuffling.ShuffleRound | lib/lambda_ethereum_consensus/state_transition/shuffling.ex:57-119 | the two passes around the pivot are one round of the index shuffle at every place |
| Shuffling.ShuffleList | lib/lambda_ethereum_consensus/state_transition/shuffling.ex:47-119 | the whole-list shuffle, last round first, gives every place what shuffling its index gives |
| Committees.SliceSize | docs/specs/beacon-chain.md:1226-1235 | every slice has the rounded-down average size or one more |
| Committees.CommitteesPartition | docs/specs/beacon-chain.md:1226-1235 | every validator is in exactly one committee |
| Committees.CommitteeMembers | docs/specs/beacon-chain.md:1226-1235 | a committee has no strangers and nobody twice |
| Committees.EpochPartition | docs/specs/beacon-chain.md:1473-1484 | in every epoch each active validator has exactly one slot and committee |
| Committees.BalancedCommittees | docs/specs/beacon-chain.md:1473-1484 | committees of an epoch differ in size by at most one |
| Committees.TargetSizeExactly | docs/specs/beacon-chain.md:1460-1467 | all committees reach the target size exactly from one full committee per slot up |
| Committees.CommitteeCountExactly | docs/specs/beacon-chain.md:1460-1467 | the number of committees is the greatest that leaves them 128 members on average, between 1 and 64 |
| Withdrawals.Due | docs/specs/beacon-chain.md:2204-2219 | no more is due than the balance |
| Withdrawals.ExpectedWithdrawals | docs/specs/beacon-chain.md:2195-2223 | the loop collects what is due to the validators it examines, round the registry, up to the bound or a full payload |
| Withdrawals.StopsOnce | docs/specs/beacon-chain.md:2195-2223 | where the sweep stops is determined |
| Withdrawals.SweptNamesOnce | docs/specs/beacon-chain.md:2195-2223 | a payload names a validator at most once |
| Withdrawals.PaidEach | docs/specs/beacon-chain.md:1771-1775 | no decrease saturates: everybody keeps exactly the difference |
| Withdrawals.PaidExactly | docs/specs/beacon-chain.md:1771-1775 | the total balance falls by exactly what is paid |
| Withdrawals.SweepConserves | docs/specs/beacon-chain.md:2229-2251 | both together for a block, with indices that follow on within it |
| Withdrawals.IndicesGapFree | docs/specs/beacon-chain.md:2237-2240 | over any sequence of blocks withdrawals are numbered without a gap or a repetition |
| Withdrawals.BeaconRegistry.PayAll | docs/specs/beacon-chain.md:2233-2235 | the loop pays every withdrawal of the payload in order |
| Withdrawals.BeaconRegistry.MoveCursors | docs/specs/beacon-chain.md:2237-2251 | both cursors move past what was withdrawn and examined |
| Withdrawals.BeaconRegistry.ProcessWithdrawals | docs/specs/beacon-chain.md:2229-2251 | accepts exactly the expected payload, pays it and moves the cursors |
| Withdrawals.BeaconRegistry.TryProcessWithdrawals | docs/specs/beacon-chain.md:2229-2251 | an empty registry or a cursor outside it is rejected without a change |
| Withdrawals.CursorAfterSweep | docs/specs/beacon-chain.md:2242-2251 | a sweep that did not reach everybody leaves the cursor right behind the last validator examined |
| Withdrawals.CursorExactly | docs/specs/beacon-chain.md:2242-2251 | the next sweep starts right after the last validator examined if the payload is full, otherwise 16384 places on, round the registry |
| Withdrawals.EverybodyExamined | docs/specs/beacon-chain.md:2195-2251 | with a fixed registry size every validator is examined within a sixteenth as many blocks, whatever happens to balances |
| Withdrawals.BalancesAfter | docs/specs/beacon-chain.md:1144-1166 | after a block every examined validator has zero, 32 ETH or its old balance left, by epoch, credential, effective balance and balance, the difference paid to its own address in one withdrawal; nobody else's balance changes |
| ExitQueue.QueueEpochFair | docs/specs/beacon-chain.md:1790-1795 | the epoch given out is not before the delay, not before any given out earlier, and not yet full |
| ExitQueue.ExitGranted | docs/specs/beacon-chain.md:1781-1799 | an exit gets the least epoch that is five on or more, not before any given out, and below the churn limit by count of active validators, and its stake 256 epochs later; it fails exactly if that does not fit in 64 bits |
| ExitQueue.Registry.QueueTail | docs/specs/beacon-chain.md:1790-1793 | the latest exit epoch and its population |
| ExitQueue.Registry.InitiateExit | docs/specs/beacon-chain.md:1781-1799 | the exit in place is the one on values, failing on 64-bit overflow |
| ExitQueue.AssignedNeverChanges | docs/specs/beacon-chain.md:1786-1788 | over any sequence of events no assigned exit epoch changes |
| ExitQueue.NewExitLast | docs/specs/beacon-chain.md:1781-1799 | a new exit goes last, into an epoch that still holds fewer exits than the churn limit in force |
| ExitQueue.FirstInFirstOut | docs/specs/beacon-chain.md:1781-1799 | whoever is queued leaves no later than whoever joins afterwards |
| ExitQueue.RunWithinChurn | docs/specs/beacon-chain.md:1438-1443 | no epoch receives more exits than the largest churn limit in force along the way |
| SquareRoot.IntegerSquareRoot | docs/specs/beacon-chain.md:940-951 | terminates on every 64-bit number without overflow or division by zero, with x * x <= n < (x + 1) * (x + 1) |
| SquareRoot.RootUnique | docs/specs/beacon-chain.md:940-951 | these bounds determine the root |
| SquareRoot.NewtonStep | docs/specs/beacon-chain.md:947-950 | a step never goes below the root |
| Merkle.IsValidMerkleBranch | docs/specs/beacon-chain.md:1097-1107 | the loop compares the root that leaf and branch lead to; a branch shorter than the depth fails |
| Merkle.BranchExact | docs/specs/beacon-chain.md:1097-1107 | the root of a tree is reached exactly from the leaf at the index with its sibling path |
| Merkle.BranchExactAnyIndex | docs/specs/beacon-chain.md:1097-1107 | the same for indices out of range, of which only the low bits count |
| OutgoingRequests.RunInvariant | lib/libp2p_port.ex:467-487 | under every interleaving an unanswered request is in exactly one place: pipe, goroutine or way back |
| OutgoingRequests.RequestsCorrelate | lib/libp2p_port.ex:887-916 | each handler runs at most once and only for its own id, no response is unhandled, and the map holds exactly the unanswered ids |
| OutgoingRequests.QuietMeansAnswered | native/libp2p_port/internal/reqresp/reqresp.go:92-100 | with nothing on its way every request issued has run its handler |
| OutgoingRequests.AnsweredExactly | native/libp2p_port/internal/reqresp/reqresp.go:92-116 | in every run that reads its pipes the handler of a request runs if and only if its goroutine finishes |
| OutgoingRequests.EveryRequestStarted | native/libp2p_port/internal/reqresp/reqresp.go:92-100 | every issued request gets to the network |
| OutgoingRequests.EveryRequestAnswered | native/libp2p_port/internal/reqresp/reqresp.go:92-116 | if in the end every peer closes its stream, every issued request runs its handler |
| IncomingRequests.RunInvariant | native/libp2p_port/internal/reqresp/reqresp.go:119-149 | between notification and answer a request keeps its entry and its goroutine waits |
| IncomingRequests.NeverPanics | native/libp2p_port/internal/reqresp/reqresp.go:119-126 | no interleaving makes `SendResponse` miss its entry; the map holds exactly the stored channels nobody took |
| IncomingRequests.HandOverIsOwn | native/libp2p_port/internal/reqresp/reqresp.go:125-143 | a response reaches the goroutine of its own stream, once |
| IncomingRequests.SendCompletes | native/libp2p_port/internal/reqresp/reqresp.go:125-142 | under weak fairness every blocked send is received |
| SyncStatus.RunSyncExactly | lib/lambda_ethereum_consensus/beacon/sync_blocks.ex:26-66 | total and requests are exactly the slots from the head to the current slot, in as few requests as chunks of 16 allow, if and only if the head is not ahead of the clock; around genesis there is nothing to request; the total is always that of the requests |
| SyncStatus.TilesDisjoint | lib/lambda_ethereum_consensus/beacon/sync_blocks.ex:40-62 | the requested ranges are disjoint and in order |
| SyncStatus.RemainingExactly | lib/libp2p_port.ex:490-510 | in every run, whatever the order of messages, the count is the slots outstanding less those outstanding when the latest sync started, and its update never raises |
| SyncStatus.CountRightExactly | lib/libp2p_port.ex:531-538 | the count is right throughout a run if and only if every sync of it starts with no slot outstanding |
| SyncStatus.GossipExactly | lib/libp2p_port.ex:790-812 | in every run gossip is subscribed exactly in the sync and download steps that leave no more outstanding than the latest sync started with |
| SyncStatus.SyncedExactly | lib/libp2p_port.ex:840-861 | in every run `syncing` turns false exactly at a tick with the head at the current slot and as much outstanding as the latest sync started with |
| SyncStatus.DriftExactly | lib/libp2p_port.ex:840-851 | in every run `syncing` turns true, and a sync is scheduled, exactly at a tick that finds the head twelve slots back or more |
| SyncStatus.RemainingIsOutstanding | lib/libp2p_port.ex:490-510 | if every sync starts with nothing outstanding, the count is the slots outstanding |
| SyncStatus.GossipOnlyAtZero | lib/libp2p_port.ex:790-812 | then gossip is subscribed exactly in the sync steps that end with nothing outstanding |
| SyncStatus.SyncedExactlyWhenDone | lib/libp2p_port.ex:840-861 | and `syncing` turns false exactly at a tick with the head at the current slot and nothing outstanding |
| SyncStatus.OrderlyIsClean | lib/libp2p_port.ex:840-851 | every sync starts with nothing outstanding if scheduled resyncs arrive before the next tick and no head is ahead of the clock |
| SyncStatus.LateResyncMiscounts | lib/libp2p_port.ex:840-851 | a run in which one tick comes before a scheduled resync, a sync starts with a slot outstanding and the count is wrong |
| PortObjects.Libp2pPort.constructor | lib/libp2p_port.ex:407-446 | the server starts with nothing unanswered and nothing outstanding |
| PortObjects.Libp2pPort.SendRequest | lib/libp2p_port.ex:467-487 | exactly one id joins the unanswered ones, with its own handler, which has not run; every unanswered request stays in exactly one place |
| PortObjects.Libp2pPort.HandleResponse | lib/libp2p_port.ex:898-916 | the next response of the pipe always has a handler, the one issued for its id, which runs for the first time; an id without a handler changes nothing |
| PortObjects.Libp2pPort.SubscribeIfNoBlocks | lib/libp2p_port.ex:790-798 | gossip is subscribed exactly if nothing is outstanding |
| PortObjects.Libp2pPort.AddBlocks | lib/libp2p_port.ex:490-510 | the size of the range is subtracted however many blocks it held, which keeps the count right; raises exactly before the first sync, never for a range asked for |
| PortObjects.Libp2pPort.SyncBlocks | lib/libp2p_port.ex:531-538 | the count is set to the slots from the head to the current one, which the requests tile; a scheduled sync keeps it right |
| PortObjects.Libp2pPort.OnTick | lib/libp2p_port.ex:814-861 | the clock moves to the slot of the time, the count stays right if no sync is on its way, and the syncing state ends only with nothing outstanding and the head at the current slot |
| PortObjects.Listener.OpenStream | native/libp2p_port/internal/reqresp/reqresp.go:128-131 | a new stream starts without an entry |
| PortObjects.Listener.ReadRequest | native/libp2p_port/internal/reqresp/reqresp.go:132-139 | a request has an entry exactly if it could be read, and no answer can be on its way for it yet |
| PortObjects.Listener.NotifyServer | native/libp2p_port/internal/reqresp/reqresp.go:140-141 | the server hears once of a request, whose entry is there by then |
| PortObjects.Listener.ServerAnswers | lib/libp2p_port.ex:642-663 | the server answers the next request or fails to, and either way its entry stays |
| PortObjects.Listener.Receive | native/libp2p_port/internal/reqresp/reqresp.go:142-142 | a goroutine at its receive has its entry still, or the command loop is sending to it |
| PortObjects.Listener.SendResponse | native/libp2p_port/internal/reqresp/reqresp.go:119-126 | never panics: the entry of the command read is there and its goroutine is at the receive or on its way to it |
| PortObjects.Listener.Deliver | native/libp2p_port/internal/reqresp/reqresp.go:125-142 | the stream has its answer, and no entry, notification or further answer is left for it |
| Snappy.ClientMaskIsRotation | lib/snappy_ex.ex:56-62 | the unbounded-integer mask equals the 32-bit rotate-and-add, and 64 bits lose nothing of it |
| Snappy.MaskBijective | lib/snappy_ex.ex:56-62 | the mask is a bijection |
| Snappy.DecodesFrames | lib/snappy_ex.ex:68-117 | the decoder computes the meaning of every list of frames, errors included |
| Snappy.AcceptedIsFrames | lib/snappy_ex.ex:68-90 | whatever it accepts is a list of frames |
| Snappy.ChunkAddsExactly | lib/snappy_ex.ex:92-126 | a chunk is accepted exactly if it carries data with the masked checksum of what it inflates to or holds, which is all it adds, or is a stream identifier or one to skip |
| Snappy.ChunkFailsExactly | lib/snappy_ex.ex:92-126 | exactly which chunks meet which of the failures |
| Snappy.CarriedDataJoins | lib/snappy_ex.ex:68-107 | chunks that carry data, compressed or not, decode to that data joined |
| Snappy.CrashesExactly | lib/snappy_ex.ex:100-107 | the decoder fails without an error value exactly on inputs where, after a stream identifier and frames that decode, a data chunk is too short for its checksum |
| Snappy.EmptyChunkCrashes | lib/snappy_ex.ex:100-101 | such an input: the stream identifier and an empty data chunk |
| Snappy.DecodesOn | lib/snappy_ex.ex:68-76 | accepted frames leave it ready for whatever follows |
| Snappy.AccumulatorIsPrefix | lib/snappy_ex.ex:68-76 | the accumulator is only ever a prefix of the result |
| Snappy.StreamsConcatenate | lib/snappy_ex.ex:50-53 | concatenated valid streams decode to the concatenated outputs |
| Snappy.SkippableIgnored | lib/snappy_ex.ex:110-113 | padding and skippable chunks change nothing, wherever they stand and whatever they hold |
| Snappy.RoundTrip | lib/snappy_ex.ex:50-126 | any data framed in uncompressed chunks is recovered |

## Left out

- The stages of blocks and epochs besides headers, attestations, weighing and participation flags: rewards, slashings, deposits, sync committees, RANDAO and effective balances are arbitrary functions here, and the exit queue and the withdrawal sweep are modelled on their own.
- The state roots ring and the historical summaries, which nothing in the model reads.
- Overflow of 64-bit slots, epochs and balances, except in the square root, the shuffle and the exit queue: numbers are unbounded elsewhere.
- Signatures, committee lookup for an attestation, KZG, SSZ and tree hashing: arbitrary predicates and collision-free functions.
- The later Electra rules for exits and withdrawals: the results are about the specification text in docs/specs.
- Proposer reorg helpers (`get_proposer_head`, `should_override_forkchoice_update`), optional and straight-line.
- The client's cache of ancestors when it weighs blocks.
- The client's acceptance of attestations from blocks it does not know.
- Discovery, gossip subscription and peer selection, and the wire encoding between server and port: the pipes are reliable and ordered.
- The retry of block downloads: a range is reported at most once because its handler runs once, which `OutgoingRequests` proves; that a retry replaces the request before it is taken from the downloader's code.
- `compress` of the Snappy module, a stub; the round trip uses a framing function of the model.
- OutgoingRequests.EveryRequestAnswered: assumes that the peer closes its stream in the end; the timeout of the source covers opening the stream but not reading from it, so a peer that keeps it open leaves the request unanswered, as `AnsweredExactly` says.
- IncomingRequests.SendCompletes: assumes weak fairness of the goroutine and of the channel, which the Go scheduler gives; a server that never answers leaves the goroutine waiting, as the source does.
- StoreObject.StoreCell.AcceptBlock: the source writes the block before the weighing that can still fail; here a rejected call leaves the store as it was, as the specification demands of rejected calls.
