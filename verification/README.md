# A verified model of Hypertensor's consensus rewards, collective, overwatch and atomic swaps

The project models four stateful runtime components of the chain and proves what they keep over
every call and every run.

* **Consensus submissions and rewards** (`pallet-network`). In every epoch of a subnet the elected
  node proposes scores, other nodes attest, and in the next epoch the submission is distributed: the
  proposer is slashed, or the rewards are held back, or the nodes are paid.
* **The collective** (`pallet-collective`). Motions, votes that can be switched, members that change
  while votes are open, early and late closing, default votes.
* **Overwatch weights** (`pallet-network`). Commit and reveal of subnet weights, in two phases of
  every overwatch epoch.
* **Atomic swaps** (`pallet-atomic-swap`). Hash-locked escrow over reserved balances.

## How it is built

Each component has a `State` datatype and a function for what one call does to it. Where the source
changes storage in place, a class holds the storage in fields, its methods change the fields in the
order in which the source does, with the source's loops and early returns, and every method is proved
to take the storage from `old` to exactly what the function says. Errors leave the state as it was:
each call is a transaction. The theorems are then lemmas about those functions, over all states, all
reachable states, or all runs.

| file | content |
|---|---|
| `Collections.dfy`, `FixedPoint.dfy` | sequences, maps, sums, folds; 128-bit saturating arithmetic and the 1e18 percentage operators |
| `Network.dfy`, `ConsensusScores.dfy` | nodes, classes, submissions; the canonical form of scores |
| `Attestation.dfy`, `AttestationTheorems.dfy` | proposing and attesting, and what every run of them keeps |
| `Rewards.dfy`, `SubnetRewards.dfy` | what a distribution does, as functions and as storage updates |
| `RewardShares.dfy`, `RewardLocality.dfy`, `RewardEmission.dfy`, `RewardOutcomes.dfy`, `SlashTheorems.dfy` | rounding; the independence of the nodes' turns; emission bounds; who is paid; slashing |
| `BalanceOutcomes.dfy`, `ReputationOutcomes.dfy` | whose balance and whose reputation a distribution changes, and by how much |
| `QueueTheorems.dfy`, `ElectionSlots.dfy`, `ClassLadder.dfy`, `Capacitor.dfy` | the registration queue; the election slots; the class ladder over runs; withheld rewards over runs |
| `Collective.dfy`, `CollectiveTheorems.dfy` | the collective |
| `OverwatchWeights.dfy`, `OverwatchTheorems.dfy` | commit and reveal |
| `AtomicSwap.dfy` | swaps |

Check everything with `dafny verify dfyconfig.toml`.

## Where the code does not keep what it seems to promise

The model follows the code. In these places a natural expectation is false of it; the project proves
when exactly it holds.

* **The emission bound.** Updating a validator's delegate reward rate checks that it is at most 1.0, but
  registering the validator does not (`pallets/network/src/lib.rs:8087-8131`); account rates are checked in both places
  (`pallets/network/src/utilities/validator.rs:186-190`). A reward is split among
  delegate pool, delegate account and node without loss or excess exactly when the rates fit
  (`RewardEmission.SplitsExactlyIff`), and under given validators and pools all rounds stay within their
  node rewards exactly when all rates fit (`RewardEmission.RoundsStayWithinIff`). A single round needs
  this only of the validators of its own nodes.
* **Immunity in the queue.** The sum of a queued node's start epoch and the immunity epochs is a 32-bit
  one, and the owner of a subnet can set any number of immunity epochs
  (`pallets/network/src/utilities/owner.rs:1085-1106`). A node is protected through all of its immunity
  exactly when that ends within 32 bits (`AttestationTheorems.ProtectedIffImmunityFits`); the longest
  immunity protects nobody, and a run that removes an immune node is given
  (`QueueTheorems.ImmuneNodeCanBeRemoved`).
* **The time lock.** The end block of a swap is a 32-bit sum as well, with a duration that its creator
  names. The swap is locked for the duration exactly when that sum does not wrap around
  (`AtomicSwap.LockedForDurationIff`); with the longest duration it can be cancelled at once.
* **The capacitor.** A comment in `calculate_rewards` says that the capacitor is reset when it is read
  (`pallets/network/src/utilities/slot.rs:776-778`); it is not. A withheld reward therefore contains the
  weighted capacitor and is added to it, so held rewards compound
  (`Capacitor.WithheldIsNotCompoundedIff`, `Capacitor.HeldRewardsCompound`); and when a round pays, only
  the weighted part of what was held is released while the capacitor is emptied
  (`Capacitor.HeldIsReleasedInFullIff`, `Capacitor.HeldRewardsAreLost`).
* **Consecutive rounds.** An absence breaks an Included node's count only if its reputation was not
  below the minimum; below it the node is to be removed, and where the block has no room for that it is
  left alone, count included (`ClassLadder.AbsenceBreaksTheCount`, `ClassLadder.AbsenceCanBeOverlooked`).
  `ClassLadder.NothingBeforeTheLadder` speaks of missed rounds in this sense.
* **The slash.** Nothing bounds the base slash percentage where it is set. `SlashTheorems.SlashWithinStakeIff`
  says when the amount can exceed a stake, and `SlashTheorems.OverSlashIsReached` gives a run in which it
  does. The stake is debited with saturation, the subnet's total is not, so that they can part
  (`SlashTheorems.TotalsAgreeAfterSlashIff`).
* **Members.** The collective's own state check expects at most `MaxMembers` members, which `set_members`
  does not enforce: it is the only expectation that can fail (`CollectiveTheorems.StateCheckPassesIffMembersFit`).
* **Votes of members that stay.** Members are stored with repetitions. A change of members keeps exactly
  the votes of those that the new list has at least as often as the old one
  (`CollectiveTheorems.SetMembersMeaning`); a member that was listed twice and stays once loses its votes.
* **Hash type.** A swap stores the hash type that its creator names, but claiming uses the claimer's
  (`AtomicSwap.StoredHashTypeIsIgnored`). Where hashes tell the type and the proof, every accepted claim
  names the stored type exactly when that is the type the key was made with, or the proof is too long to
  be claimed with (`AtomicSwap.ClaimsNameTheStoredTypeIff`); a mislabelled swap that is claimed is given
  (`AtomicSwap.MislabelledSwapIsClaimed`).

## Model

| member | source | states |
|---|---|---|
| FixedPoint.PercentMulIsFloor | pallets/network/src/utilities/math.rs:30-51 | `percent_mul` is the floor of x·y/1e18, saturating; its 256-bit guard never fires on 128-bit inputs |
| FixedPoint.PercentMulShrinks | pallets/network/src/utilities/math.rs:30-51 | scaling by at most 1.0 never enlarges and is exact up to one unit |
| FixedPoint.PercentDivShare | pallets/network/src/utilities/math.rs:56-68 | a part of a whole is a share of at most 1.0, exact up to one unit |
| ConsensusScores.CanonicalizeEntries | pallets/network/src/consensus/subnet_validator.rs:23-53 | the two loops compute the canonical form: lowest score per node in ascending order and the checked sum |
| ConsensusScores.CanonicalMeaning | pallets/network/src/consensus/subnet_validator.rs:23-53 | there is exactly one ascending list with one entry per named node, its lowest score; the canonical form is that list with its exact sum, and there is none exactly when the sum exceeds 128 bits |
| ConsensusScores.CanonicalIgnoresOrder | pallets/network/src/consensus/subnet_validator.rs:23-53 | inputs with the same entries, in any order and multiplicity, have the same canonical form |
| ConsensusScores.CanonicalIsIdempotent | pallets/network/src/utilities/slot.rs:732-736 | recomputing the canonical form of a stored one, as distribution does, gives the same entries and sum |
| ConsensusScores.CanonicalIdsMeaning | pallets/network/src/consensus/subnet_validator.rs:74-78 | canonical attestor ids are the given ids, each once, ascending |
| Attestation.Pallet.ProposeAttestation | pallets/network/src/consensus/subnet_validator.rs:130-320 | storage and result of a proposal, with all its refusals |
| Attestation.Pallet.Attest | pallets/network/src/consensus/subnet_validator.rs:322-421 | storage and result of an attestation; the insertion that precedes the duplicate test is never stored when it fails |
| AttestationTheorems.AttestMeaning | pallets/network/src/consensus/subnet_validator.rs:322-421 | exactly when an attestation is accepted: keys not refused, an active validator on the frozen list of a submission not from a later block, and no attestation yet; then exactly its entry is added, with block, progress and clamped factor, else nothing changes |
| AttestationTheorems.AttestorProgressMeaning | pallets/network/src/utilities/era.rs:162-207 | progress is elapsed over remaining blocks of the proposal's epoch, rounded down, and 1.0 from its end on |
| AttestationTheorems.ProposalMeaning | pallets/network/src/consensus/subnet_validator.rs:130-320 | exactly when a proposal is accepted, and every field of the record it leaves: proposer, block, factor by the progress of the epoch, attestor list, snapshot, requests and lowest eligible scores |
| AttestationTheorems.EligibleMeaning | pallets/network/src/consensus/subnet_validator.rs:55-72 | the scores that count are those of active nodes at least Included |
| AttestationTheorems.EpochProgressMeaning | pallets/network/src/utilities/era.rs:212-242 | the progress of an epoch is its share of blocks passed, rounded down |
| Attestation.CheckQueueRequests | pallets/network/src/consensus/subnet_validator.rs:254-290 | the loop over the queue, with its early exit and its 32-bit sum, decides both requests as the scan function does |
| AttestationTheorems.RequestsByWholeScan | pallets/network/src/consensus/subnet_validator.rs:254-290 | stopping early decides both requests as a scan of the whole queue does, when no node is queued twice |
| AttestationTheorems.QueueRequestsKept | pallets/network/src/consensus/subnet_validator.rs:254-290 | a removal request is kept only for a queued node that the 32-bit check admits, a priority request only for a queued node; without repeated ids in the queue, exactly for those; who is admitted is past its immunity unless that ends beyond 32 bits |
| AttestationTheorems.ImmuneNodeIsKeptIff | pallets/network/src/consensus/subnet_validator.rs:268-274 | at one epoch a still immune node is protected exactly when its sum fits in 32 bits or what is left of it lies ahead |
| AttestationTheorems.ProtectedIffImmunityFits | pallets/network/src/consensus/subnet_validator.rs:268-274 | a queued node is protected at every epoch of its immunity exactly when start epoch plus immunity fits in 32 bits |
| AttestationTheorems.LongestImmunityProtectsNobody | pallets/network/src/utilities/owner.rs:1085-1106 | a concrete immunity under which the removal of an immune node is kept |
| AttestationTheorems.SubmissionsOnlyGrow | pallets/network/src/consensus/subnet_validator.rs:189-411 | over any run a submission is never replaced or dropped and its attestations are never overwritten |
| AttestationTheorems.StoredIsWellFormed | pallets/network/src/consensus/subnet_validator.rs:189-411 | every stored submission has attesters only from the frozen list or the proposer, factors at most 1.0, distinct active nodes, canonical scores for nodes at least Included |
| AttestationTheorems.OneProposalOneAttestation | pallets/network/src/consensus/subnet_validator.rs:189-411 | a second proposal for an epoch and a second attestation by a node are refused and leave storage as it was |
| AttestationTheorems.StoredRequestsWereChecked | pallets/network/src/consensus/subnet_validator.rs:254-290 | every stored submission comes from one proposal of its epoch whose queue requests passed the check then; a kept removal is of a node past its immunity if that fits in 32 bits |
| AttestationTheorems.DistributionReceivesWhatWasStored | pallets/network/src/utilities/slot.rs:657-753 | whatever a run stored reaches distribution field by field, with the sum of its scores and the share of its attestors that attested, at most 1.0; no overflow can lose it |
| RewardShares.SharesAddUp | pallets/network/src/bank/rewards.rs:316-424 | through both floors, nodes earn together at most the reward; when each score has a listed node, the loss times 1e18 is less than n·(R+1e18) |
| SubnetRewards.NodeTable.IncreaseReputation | pallets/network/src/utilities/reputation.rs:190-217 | a registered node's raised reputation is stored and returned; for any other node nothing is stored and the given one is returned |
| SubnetRewards.NodeTable.DecreaseReputation | pallets/network/src/utilities/reputation.rs:221-300 | a registered node's lowered reputation is stored and returned, never above the given one; for any other node nothing is stored |
| SubnetRewards.NodeTable.RemoveActiveNode | pallets/network/src/utilities/subnet_node.rs:944-971 | removing an active node clears its reputation and counters, its election slot by swap-remove, and its place among emergency validators |
| SubnetRewards.NodeTable.RemoveRegisteredNode | pallets/network/src/utilities/subnet_node.rs:973-986 | removing a queued node clears its data and drops it from the queue |
| SubnetRewards.NodeTable.GraduateToValidatorClass | pallets/network/src/utilities/subnet_node.rs:1211-1250 | graduation to the next class happens exactly for an active node without an election slot, which it gets |
| SubnetRewards.NodeTable.HandleIdleNode | pallets/network/src/bank/rewards.rs:785-817 | the Idle counter goes up; at its threshold the node graduates and the counter is cleared |
| SubnetRewards.NodeTable.HandleIncludedNode | pallets/network/src/bank/rewards.rs:819-859 | the Included counter goes up; at its threshold and with a full reputation the node graduates |
| SubnetRewards.NodeTable.HandleNodeQueueConsensus | pallets/network/src/bank/rewards.rs:683-756 | the queue and registrations after both requests |
| SubnetRewards.NodeTable.SettleNode | pallets/network/src/bank/rewards.rs:316-391 | the reward factor, and the reputation after a low weight and a missing attestation, forked or not |
| SubnetRewards.NodeTable.JudgeNode | pallets/network/src/bank/rewards.rs:183-424 | reputation, class, counters and removal of one node, and its gross reward, on every path of the loop body |
| SubnetRewards.NodeTable.PenalizeAttestors | pallets/network/src/bank/rewards.rs:544-599 | the reputations and removals of all attesters after a round out of consensus |
| SubnetRewards.NodeTable.PenalizeProposer | pallets/network/src/consensus/subnet_validator.rs:514-557 | the proposer's reputation falls and it is removed below the minimum, without asking the weight meter |
| SubnetRewards.NodeTable.MaybeGetForkedNodeIds | pallets/network/src/bank/rewards.rs:861-884 | the fork in force is returned and its epoch count goes up, saturating |
| SubnetRewards.Bank.IncreaseNodeStake | pallets/network/src/stake/node_staking.rs:200-211 | a node's stake and the total grow, saturating |
| SubnetRewards.Bank.DecreaseNodeStake | pallets/network/src/stake/node_staking.rs:213-224 | a node's stake and the total shrink, saturating |
| SubnetRewards.Bank.IncreaseValidatorDelegateStake | pallets/network/src/stake/validator_delegate_staking.rs:383-398 | a delegate pool grows, with its first shares when it is empty |
| SubnetRewards.Bank.IncreaseDelegateAccountBalance | pallets/network/src/stake/delegate_account.rs:73-79 | a delegate account's balance and the total grow, saturating |
| SubnetRewards.Bank.IncreaseDelegateStake | pallets/network/src/stake/delegate_staking.rs:418-433 | the subnet's delegate pool grows, with its first shares when it is empty |
| SubnetRewards.Bank.PayNode | pallets/network/src/bank/rewards.rs:420-472 | balances and event lists after one gross reward is split |
| SubnetRewards.Subnet.HandleNonConsensus | pallets/network/src/bank/rewards.rs:497-600 | the whole state after a round out of consensus |
| SubnetRewards.Subnet.HandleValidatorReward | pallets/network/src/bank/rewards.rs:602-640 | the proposer reward goes to the proposer's stake |
| SubnetRewards.Subnet.RewardNodes | pallets/network/src/bank/rewards.rs:183-473 | the loop over the snapshot takes storage and events through all its nodes in order |
| SubnetRewards.Subnet.DistributeRewards | pallets/network/src/bank/rewards.rs:31-494 | the whole state and the event of a distribution, in each of its three outcomes |
| RewardLocality.OneTurn | pallets/network/src/bank/rewards.rs:183-473 | in the loop a node is as before up to its own turn and stays as its turn left it: no other node's turn touches it |
| RewardLocality.JudgeGivesDue | pallets/network/src/bank/rewards.rs:183-424 | a node's gross reward is what its score earns exactly when it is paid by a rule on its own reputation and class, else nothing |
| BalanceOutcomes.GrossMeaning | pallets/network/src/bank/rewards.rs:316-424 | a score earns its share of the node rewards by the node's own reward factor if it was expected to attest and did, else at 1.0, rounded down three times |
| BalanceOutcomes.SplitMeaning | pallets/network/src/bank/rewards.rs:886-927 | the pool gets its rate of a reward if it has a rate and shares, the account its rate of the rest, the node what remains |
| BalanceOutcomes.BalancesFollowTheEvent | pallets/network/src/bank/rewards.rs:144-494 | in a paying round every stake, pool and account grows by exactly what the event lists for it, the proposer by its reward too, owner and delegators by their shares, and nobody else |
| BalanceOutcomes.EventListsTheParts | pallets/network/src/bank/rewards.rs:414-494 | what the event lists for a node, pool or account is exactly the sum of the parts that the snapshot's nodes bring it |
| BalanceOutcomes.StakeAfterRound | pallets/network/src/bank/rewards.rs:466-470 | a node's stake after a paying round |
| BalanceOutcomes.WithholdingPaysTheProposer | pallets/network/src/bank/rewards.rs:144-158 | a round that agrees on no scores pays the proposer only and adds the overall reward to the capacitor |
| BalanceOutcomes.SlashIsTaken | pallets/network/src/consensus/subnet_validator.rs:473-596 | out of consensus the proposer's stake falls by exactly the floored slash, as far as there is any, and nobody else's changes |
| BalanceOutcomes.PoolSharesAfterRound | pallets/network/src/stake/validator_delegate_staking.rs:383-398 | a pool with a balance keeps its shares, an empty one that is paid gets its first ones, one without shares none |
| ReputationOutcomes.LowerMeaning | pallets/network/src/utilities/reputation.rs:292-300 | a penalty takes exactly the floor of the reputation by the floored product of its factors, and not nothing once that comes to a unit |
| ReputationOutcomes.ReputationAfterRound | pallets/network/src/bank/rewards.rs:183-424 | the exact reputation of every node of the snapshot after a paying round (absent, low weight, missing attestation, apprentice), and exactly when it is removed |
| ReputationOutcomes.ReputationAfterRejection | pallets/network/src/bank/rewards.rs:497-600 | the exact reputation of proposer, attesters and everybody else after a round out of consensus, and exactly who is removed |
| ReputationOutcomes.SubnetReputationAfter | pallets/network/src/utilities/reputation.rs:140-168 | the subnet's reputation after any round |
| RewardEmission.SplitsExactlyIff | pallets/network/src/bank/rewards.rs:428-472 | every gross reward equals node, pool and account part exactly when the rates fit |
| RewardEmission.UnfitRatesOverpay | pallets/network/src/lib.rs:8087-8131 | for every validator with an unfit rate, a round on a submission that a run stores credits more than the node rewards; account rates are checked wherever they are stored, so in storage only the delegate reward rate can be unfit |
| RewardEmission.RoundsStayWithinIff | pallets/network/src/bank/rewards.rs:183-473 | under given validators and pool shares all rounds with sound submissions credit at most the node rewards exactly when every validator's rates fit |
| RewardEmission.PayConserves | pallets/network/src/bank/rewards.rs:428-472 | paying a node credits exactly its gross reward, in balances and in the event |
| RewardEmission.PutGrows | pallets/network/src/stake/node_staking.rs:200-211 | an entry and the total that both grow with saturation keep in step exactly when the total does not saturate or there is no other entry |
| RewardEmission.LoopPaysTheDue | pallets/network/src/bank/rewards.rs:183-473 | the loop credits exactly the sum of what every node was due at the start |
| RewardEmission.RoundCreditsTheDue | pallets/network/src/bank/rewards.rs:144-494 | a paying round credits nodes and delegates exactly what is due, at most the node rewards, and all balances grow by exactly what is credited, with the totals still the sums of their entries, unless one saturates |
| RewardEmission.RoundingLosesLittle | pallets/network/src/bank/rewards.rs:316-424 | when every scored node is paid in full, the undistributed part times 1e18 is less than n·(R+1e18) |
| RewardEmission.RewardsAddUp | pallets/network/src/utilities/slot.rs:768-811 | overall, owner, delegator and node rewards by their own percentages; they add up, and come to at most what all subnets get plus the capacitor |
| RewardEmission.EpochCreatesAtMost | pallets/network/src/bank/rewards.rs:31-494 | one epoch creates at most its overall reward and one proposer reward, in every outcome |
| RewardEmission.SubmittedEpochCreatesAtMost | pallets/network/src/utilities/slot.rs:195-305 | the same for every submission that any run of proposals and attestations can store |
| RewardOutcomes.PaidIffDue | pallets/network/src/bank/rewards.rs:393-472 | the event names exactly the nodes that something is due to |
| RewardOutcomes.PaidImpliesReputable | pallets/network/src/bank/rewards.rs:190-403 | whoever is paid and is still registered after the round has at least the minimum reputation then |
| RewardOutcomes.NonConsensusOnlyTakes | pallets/network/src/bank/rewards.rs:61-76 | out of consensus nobody gains: only the proposer's stake falls, by at most the cap; reputations only fall; classes, counters, queue, other balances and the capacitor stay |
| RewardOutcomes.RemovalMeaning | pallets/network/src/utilities/subnet_node.rs:944-1045 | a removed node leaves no reputation, counter, fork place or slot behind, and nobody else is touched |
| RewardOutcomes.ForkIsCounted | pallets/network/src/bank/rewards.rs:861-884 | every distribution counts one epoch of a fork in force, with saturation, and neither starts, ends nor enlarges one |
| SlashTheorems.SlashBounds | pallets/network/src/consensus/subnet_validator.rs:572-596 | a slash is at most the cap and, with a base slash of at most 1.0, at most the stake |
| SlashTheorems.SlashWithinStakeIff | pallets/network/src/consensus/subnet_validator.rs:572-596 | at no attestation ratio is any stake slashed by more than itself exactly when the base slash is at most 1.0 or the cap is too low to matter |
| SlashTheorems.WithinStakeAtShareIff | pallets/network/src/consensus/subnet_validator.rs:572-596 | the exact condition at a shortfall of one q-th: the base slash is at most q or the cap is too low to matter |
| SlashTheorems.OverSlashIsReached | pallets/network/src/admin/admin.rs:281-287 | a run whose submission, attested by one of three validators, is slashed by more than some stake exactly when the base slash is above 2.0 and the cap high enough |
| SlashTheorems.OverSlashInDesertedFork | pallets/network/src/utilities/slot.rs:741-742 | a run in a fork without validators left, whose submission reaches shortfall 1.0, with the condition of base slash 1.0 |
| SlashTheorems.SlashFallsWithAttestation | pallets/network/src/consensus/subnet_validator.rs:492-504 | the slash does not increase with the attestation ratio |
| SlashTheorems.TotalsAgreeAfterSlashIff | pallets/network/src/stake/node_staking.rs:213-224 | after a round out of consensus the totals are still the sums of their entries exactly when the slash is at most the stake or nobody else has any |
| QueueTheorems.QueueAfterConsensus | pallets/network/src/bank/rewards.rs:683-756 | the queue is the old one with the prioritized node in front and, if its removal is granted, the removed one gone; all others, a node whose removal is not granted included, keep their order; nothing else leaves or enters |
| QueueTheorems.RemovalFromQueueMeaning | pallets/network/src/utilities/subnet_node.rs:973-1045 | a granted removal forgets the registered node and nothing else; without one only the order of the queue changes |
| QueueTheorems.QueueAfterRound | pallets/network/src/bank/rewards.rs:61-126 | a whole distribution changes the queue by consensus only, and only in consensus |
| QueueTheorems.NeverRemovedWhileImmune | pallets/network/src/bank/rewards.rs:723-754 | whatever a distribution takes off the queue is a node whose removal was proposed and passed the 32-bit check, hence was past its immunity if that fits in 32 bits |
| QueueTheorems.ImmuneNodeCanBeRemoved | pallets/network/src/bank/rewards.rs:723-754 | a concrete run and distribution that take an immune node off the queue under the longest immunity |
| ElectionSlots.DistributionKeepsSlotsInStep | pallets/network/src/utilities/subnet_node.rs:944-1250 | after any distribution of an up-to-date snapshot the election slots are exactly the active nodes of class Validator, each once |
| ClassLadder.DistributionMoves | pallets/network/src/bank/rewards.rs:211-304 | what a distribution does to a registered node's class, counters and slot by what the round was to it: it graduates exactly at its threshold, from Included only with reputation 1.0 and no slot |
| ClassLadder.NothingBeforeTheLadder | pallets/network/src/bank/rewards.rs:211-304 | over whole runs a new node that stays registered is not paid in an unforked round before it waited to the Idle threshold and then, without a missed round, took part to the Included threshold and had reputation 1.0 at graduation |
| ClassLadder.AbsenceBreaksTheCount | pallets/network/src/bank/rewards.rs:199-282 | an absence resets the Included count exactly when the reputation is at least the minimum |
| ClassLadder.AbsenceCanBeOverlooked | pallets/network/src/bank/rewards.rs:199-209 | a concrete run, distribution and registered node whose absence leaves the count as it was |
| Capacitor.EmissionStep | pallets/network/src/utilities/slot.rs:237-272 | one epoch computes its rewards from the capacitor and distributes them |
| Capacitor.CapacitorSums | pallets/network/src/bank/rewards.rs:147-162 | over any run without a paying round the capacitor is the saturating sum of what it held and the overall rewards of the rounds that agreed on no scores |
| Capacitor.CapacitorSincePaying | pallets/network/src/bank/rewards.rs:147-162 | after a paying round it is exactly the saturating sum withheld since |
| Capacitor.WithheldIsNotCompoundedIff | pallets/network/src/utilities/slot.rs:776-782 | withholding adds just the epoch's own reward exactly when the weighted capacitor stays below the next unit or nothing more fits |
| Capacitor.HeldIsReleasedInFullIff | pallets/network/src/utilities/slot.rs:776-782 | paying releases all that was held exactly when the capacitor can be added without saturation and rounding makes up for the unweighted rest |
| Capacitor.HeldRewardsCompound | pallets/network/src/utilities/slot.rs:776-782 | a concrete run in which two withheld rewards of 50 become 125 |
| Capacitor.HeldRewardsAreLost | pallets/network/src/bank/rewards.rs:160-162 | a concrete run in which a paying epoch releases 75 where 100 is expected, and empties the capacitor |
| Collective.SearchDecidesMembership | pallets/collective/src/lib.rs:1144-1179 | the binary search over the sorted outgoing list decides membership |
| Collective.OutgoingCoversDropped | pallets/collective/src/lib.rs:436-450 | the merge's outgoing list contains every dropped member, repetitions or not |
| Collective.Pallet.ChangeMembersSorted | pallets/collective/src/lib.rs:1144-1179 | outgoing votes leave every open motion, members are replaced, the prime is cleared |
| Collective.Pallet.SetMembers | pallets/collective/src/lib.rs:410-452 | storage and result of setting the members and the prime |
| CollectiveTheorems.SetMembersMeaning | pallets/collective/src/lib.rs:410-452 | exactly when members can be set; the list is then in order and every motion keeps exactly the votes of those it lists as often as before |
| CollectiveTheorems.OutgoingCounts | pallets/collective/src/lib.rs:436-450 | the merge lists exactly whoever the old list has more often than the new |
| Collective.Pallet.ExecuteProposal | pallets/collective/src/lib.rs:471-501 | storage and result of a member's direct execution |
| CollectiveTheorems.ExecuteMeaning | pallets/collective/src/lib.rs:471-501 | exactly when a direct execution is accepted |
| Collective.Pallet.ProposeMotion | pallets/collective/src/lib.rs:694-778 | storage and result of proposing, executed at once below threshold two |
| CollectiveTheorems.ProposeMeaning | pallets/collective/src/lib.rs:694-778 | exactly when a motion is opened or executed at once, and its index, threshold, empty tallies and end |
| Collective.Pallet.CastVote | pallets/collective/src/lib.rs:782-830 | storage and result of a vote, with switching by swap-remove |
| Collective.Pallet.CloseMotion | pallets/collective/src/lib.rs:833-1000 | storage and result of closing, early or late, with execution on approval |
| CollectiveTheorems.CloseMeaning | pallets/collective/src/lib.rs:833-1019 | a close executes exactly an open, approvable motion within its bounds and drops it from what that leaves; it only drops exactly an open, disapprovable one; else nothing changes |
| CollectiveTheorems.CloseErrors | pallets/collective/src/lib.rs:833-964 | when closing gives which error |
| Collective.Pallet.RemoveProposal | pallets/collective/src/lib.rs:1010-1019 | a proposal leaves all three storage items |
| CollectiveTheorems.RunValid | pallets/collective/src/lib.rs:1050-1130 | every reachable state has distinct proposals within the limit with the same hashes in all items, distinct live indices below the count, tallies that are distinct, disjoint and within the members |
| CollectiveTheorems.AbstentionsNeverUnderflow | pallets/collective/src/lib.rs:897 | in every reachable state votes fit in the seats, so the unchecked subtraction cannot underflow |
| CollectiveTheorems.VoteMovesTheVoter | pallets/collective/src/lib.rs:782-830 | exactly when a vote is taken, and that it moves the voter to the chosen side and nothing else |
| CollectiveTheorems.EarlyCloseRefinesLateClose | pallets/collective/src/lib.rs:842-902 | early approval and disapproval exclude each other and agree with the late rule under every default vote; else the late verdict is the default vote |
| CollectiveTheorems.ClosingEarlyLosesNothing | pallets/collective/src/lib.rs:842-938 | a motion closed early would have had the same outcome, and left the same storage but for block and prime, at any later block under any prime |
| CollectiveTheorems.VerdictMeaning | pallets/collective/src/lib.rs:114-139 | when exactly a motion can be approved and disapproved, in terms of ayes, nays, seats, time and default vote |
| CollectiveTheorems.StateCheckPassesIffMembersFit | pallets/collective/src/lib.rs:1050-1130 | in every reachable state the pallet's state check passes exactly when the members are within the bound |
| CollectiveTheorems.StateCheckAfterSetting | pallets/collective/src/lib.rs:410-452 | after any run and an accepted setting of members the state check passes exactly when the list that was set fits |
| CollectiveTheorems.StateCheckPassesWhileListsFit | pallets/collective/src/lib.rs:1050-1130 | over any run in which every list fits, set directly or by a proposal, it passes |
| CollectiveTheorems.StateCheckCanFail | pallets/collective/src/lib.rs:410-452 | one accepted call makes it fail |
| CollectiveTheorems.ResolvedStaysResolved | pallets/collective/src/lib.rs:725-840 | an index that is no longer open never is again, and voting on or closing it fails under every hash |
| CollectiveTheorems.ClosedIsResolved | pallets/collective/src/lib.rs:833-938 | closing ends a motion |
| CollectiveTheorems.ClosedAtMostOnce | pallets/collective/src/lib.rs:833-938 | over any run every index is closed, hence executed, at most once |
| OverwatchWeights.Pallet.Commit | pallets/network/src/overwatch_nodes/commit_reveal.rs:7-58 | storage and result of a batch commit; a failing entry rolls back those before it |
| OverwatchWeights.Pallet.DoCommit | pallets/network/src/overwatch_nodes/commit_reveal.rs:60-80 | one commit is stored unless one is there |
| OverwatchWeights.Pallet.Reveal | pallets/network/src/overwatch_nodes/commit_reveal.rs:82-137 | storage and result of a batch reveal; a failing entry rolls back those before it |
| OverwatchTheorems.QualifiedAreLeaders | pallets/network/src/overwatch_nodes/commit_reveal.rs:40-46 | adjacent-only dedup and filter keep exactly the first entries of runs of known subnets |
| OverwatchTheorems.QualifiedDistinctIffContiguous | pallets/network/src/overwatch_nodes/commit_reveal.rs:40-46 | what is kept has distinct subnets exactly when the batch lists each known subnet in one block |
| OverwatchTheorems.BatchCommitSucceedsWhen | pallets/network/src/overwatch_nodes/commit_reveal.rs:36-58 | a batch succeeds exactly when it names a known subnet, lists known subnets contiguously, and none is committed; otherwise nothing is stored |
| OverwatchTheorems.BatchCommitStoresLeaders | pallets/network/src/overwatch_nodes/commit_reveal.rs:36-58 | a successful batch adds exactly its known subnets, with the first hash of each run, and keeps all earlier commits |
| OverwatchTheorems.BatchRevealSucceedsWhen | pallets/network/src/overwatch_nodes/commit_reveal.rs:82-137 | a batch of reveals succeeds exactly when the caller is not refused, it is the reveal period and every entry opens its commit; otherwise nothing is stored |
| OverwatchTheorems.BatchRevealStoresLast | pallets/network/src/overwatch_nodes/commit_reveal.rs:110-137 | then every named subnet holds the weight of its last entry, and everything else stays |
| OverwatchTheorems.CommitsBindReveals | pallets/network/src/overwatch_nodes/commit_reveal.rs:60-137 | over any run commits are never overwritten and every stored reveal opens a commit of the same epoch, node and subnet |
| OverwatchTheorems.RevealedWeightIsFinal | pallets/network/src/overwatch_nodes/commit_reveal.rs:110-137 | with an injective hash a stored reveal never changes |
| OverwatchTheorems.CommitPeriodIsPrefix | pallets/network/src/utilities/era.rs:58-71 | the commit period is a prefix of each epoch, in 32-bit block arithmetic |
| OverwatchTheorems.EveryEpochHasRevealBlock | pallets/network/src/admin/admin.rs:392-403 | the last block of every epoch is for revealing exactly when the cutoff is below 1.0, as it is when at most 95 percent |
| OverwatchTheorems.PhasesNeverMix | pallets/network/src/overwatch_nodes/commit_reveal.rs:27-105 | in any run all commits of an epoch come before all its reveals, in strictly earlier blocks |
| AtomicSwap.Pallet.CreateSwap | pallets/atomic-swap/src/lib.rs:277-309 | storage and result of creating a swap, with its 32-bit end block |
| AtomicSwap.CreateMeaning | pallets/atomic-swap/src/lib.rs:277-309 | exactly when a swap is created, and whose balances change by how much |
| AtomicSwap.Pallet.ClaimSwap | pallets/atomic-swap/src/lib.rs:326-363 | storage and result of a claim, which consumes the swap even when it cannot pay |
| AtomicSwap.ClaimMeaning | pallets/atomic-swap/src/lib.rs:326-363 | after any run: exactly when a claim is accepted and when it pays, and whose balances change by how much |
| AtomicSwap.Pallet.CancelSwap | pallets/atomic-swap/src/lib.rs:373-396 | storage and result of a cancel |
| AtomicSwap.CancelMeaning | pallets/atomic-swap/src/lib.rs:373-396 | after any run: the creator can cancel exactly from the end block itself on, and gets the value back |
| AtomicSwap.EscrowLedger | pallets/atomic-swap/src/lib.rs:158-172 | over any run every reserve is the sum of the account's pending swaps and of its claims that could not pay; free plus reserved is constant |
| AtomicSwap.SettlementPaysInFull | pallets/atomic-swap/src/lib.rs:154-173 | after any run a cancel returns the full value, a paid claim pays it in full, an unpaid one moves nothing |
| AtomicSwap.SettledAtMostOnce | pallets/atomic-swap/src/lib.rs:277-396 | at every point creations exceed settlements of a swap by one exactly while it is pending, else they are equal |
| AtomicSwap.PendingHasOrigin | pallets/atomic-swap/src/lib.rs:277-309 | every pending swap is what some call created, 32-bit end block included, unsettled since |
| AtomicSwap.SettledOnlyByTheRightParty | pallets/atomic-swap/src/lib.rs:326-396 | a cancel comes from the creator at or after the stored end block, which is the duration after creation if that fits in 32 bits; a claim from the target with a preimage of the key |
| AtomicSwap.LockedForDurationIff | pallets/atomic-swap/src/lib.rs:277-396 | whatever calls follow a creation, its creator can cancel only after the duration exactly when block plus duration fits in 32 bits |
| AtomicSwap.LongestDurationLocksNothing | pallets/atomic-swap/src/lib.rs:277-309 | a concrete duration with which a swap can be cancelled at once |
| AtomicSwap.ProofUnlocksCounterpart | pallets/atomic-swap/src/lib.rs:189-201 | a proof accepted on one chain unlocks a counterpart pending on another with the same hashes exactly when it fits that chain's limit, as it does when the limit is no smaller |
| AtomicSwap.StoredHashTypeIsIgnored | pallets/atomic-swap/src/lib.rs:326-363 | the stored hash type takes no part in a claim |
| AtomicSwap.ClaimUnderAnotherType | pallets/atomic-swap/src/lib.rs:326-363 | a claim under the type that the key was made with is accepted whatever type is stored |
| AtomicSwap.ClaimsNameTheStoredTypeIff | pallets/atomic-swap/src/lib.rs:277-363 | with injective hashes every accepted claim names the stored type exactly when that is the type the key was made with or the proof exceeds the limit |
| AtomicSwap.MislabelledSwapIsClaimed | pallets/atomic-swap/src/lib.rs:277-363 | a concrete creation and claim under different types |

## Left out

- Weight accounting: the amounts are left out; the weight meter's answer to whether a removal still fits is an arbitrary function of the node.
- Floating point: `pow` in the reputation increase and the reward curves are arbitrary functions under the code's own final clamp to 1.0; that an increase never lowers a reputation is not claimed, because it depends on floating-point rounding.
- `ValidatorReputation`: the statistics of a validator's coldkey are written by distribution but read by nothing modelled here.
- Node counts, peer-id and multiaddress indices, slot indices and per-network totals: they are bookkeeping beside the storage modelled here; per-subnet totals of stake and of delegate accounts are kept.
- 32-bit counters that only count up by one: the Idle and Included counters, motion indices, and the block numbers of the collective with its constant motion duration are unbounded; block numbers of swaps and of overwatch stop at the last 32-bit number. Sums with a number that a caller or an owner chooses are 32-bit sums.
- Share prices of delegate pools: a pool's balance is modelled, and its shares only as far as a deposit into an empty pool changes them.
- ClassLadder.NothingBeforeTheLadder: does not model what happens between distributions except that it leaves the node's class and counters alone, as no other code writes them for a registered node, and that a snapshot is taken from storage after the last distribution before its own; `ElectionSlots` takes the same for all nodes of the snapshot.
- An epoch without a submission: the penalties for the absent proposer only lower reputations.
- Electing validators, activating queued nodes, and setting up or reviving forks: the election slots, the queue and the emergency validators are given as they are in storage.
- Origins and keys: the checks on a caller's keys are an arbitrary refusal, and the collective's `Ensure*` proportion origins and signed-origin checks are not modelled.
- What a dispatched proposal does outside the collective: inside it, the collective's own origin, under which a proposal runs, reaches only setting the members and disapproving, and any sequence of those is modelled.
- FRAME's sorted member diff and reservable currency: modelled from their contract, with the currency's refusals arbitrary; existential deposits and other pallets that move reserves are not modelled.
- `set_prime` through the `ChangeMembers` hook: it may set anyone, and the proofs about the prime do not cover it.
- Hash functions: uninterpreted; injective only where a statement says so.
- Genesis building, benchmarks, runtime APIs, RPC, precompiles and the node.
