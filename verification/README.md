# A verified model of the viper-pq-chain core

This project models the parts of a post-quantum proof-of-stake chain whose correctness is hardest to see, and
proves what they promise. It is written in Dafny 4.11; `dafny verify dfyconfig.toml` checks all of it.

| modules | what they model |
|---|---|
| `Quorum`, `Round`, `Handlers`, `Agreement` | the propose, prevote, precommit round machine with locking, run by any number of correct and faulty validators |
| `Liveness`, `Standstill` | when the correct validators can decide a height, and a run after which they cannot |
| `CommitCertificate`, `Finality`, `MixedRounds` | commit certificates, how they relate to what nodes decide, and how far apart the rounds of their signatures may be |
| `Blocks`, `Chain` | blocks and the in-memory chain window with its two indices |
| `RocksStore`, `RocksOps`, `RocksRuns`, `RocksCases`, `RocksDb` | the database-backed store: values, operations, whole runs, concrete cases, and the class |
| `DiskStore`, `DiskDb` | the file store as a sequence of file-system steps with crashes, and the class |
| `Ledger`, `Execution`, `Mempool` | accounts and fees, transaction execution, the pending pool |
| `Assembly`, `BlockEnd`, `Replay`, `Engine` | block assembly and replay: values, their relation, and the methods |
| `Merkle`, `Committee`, `Nakamoto` | the Merkle root, the sync committee, the decentralisation coefficient |
| `EvictionQueue`, `OrphanCache` | the orphan cache: its eviction queue on values, and the class |
| `Prelude`, `Sums` | shared definitions |

Where the source updates things in place the model is a class or a method with loops, proved against functions
on values; the theorems are lemmas about those functions.

## Main results

- **Agreement and validity.** In every run with fewer than a third of the validators faulty, all commits of correct
  nodes at a height name one block, which a correct node received as a proposal (`Agreement.AgreementHolds`,
  `Agreement.ValidityHolds`). Faulty nodes may send any vote at any time, and votes arrive in any order.
- **Deciding.** At a common start of a round the correct validators can decide by themselves if and only if a quorum of
  them is free to vote for one block; then all can, in that round (`Liveness.DecidesIff`).
- **Reopening.** A database store reopens to itself exactly if its newest checkpoint names the canonical hash and
  the recorded counts are right and memory holds nothing that was pruned (`RocksStore.ReopenExactIff`), and runs of
  prudent operations keep that (`RocksRuns.RunsReopenFaithfully`, `RocksRuns.TidyRunsReopenExactly`).
- **Crash safety.** Whatever prefix of a file write a crash keeps, the next opening gives the old chain, the new
  chain, or refuses (`DiskStore.CrashSafe`, `DiskStore.DiskRunsStayOk`).
- **Replay.** Replaying a production run ends in the state that production reached, exactly if no batch was at an
  epoch boundary whose transitions change the state (`Replay.ReplayReproduces`, `Replay.ReplayReproducesIff`).
- **Conservation.** Fees are neither created nor destroyed exactly while the burn stays within them
  (`Ledger.FeesConservedIff`). A block changes the sum of balances by exactly what its payloads move, under the same
  condition (`Assembly.BlockConservesIff`), and conserves balances and bonds together where payloads only move value
  between them (`Assembly.BlockKeepsWealthIff`).
- **Binding, sampling, minimality.** Merkle roots bind lists of distinct leaves; committee draws are exactly
  stake-weighted; the greedy coefficient is minimal.

## Where the code does less than its comments say

Each point names the exact condition under which the promise holds and a concrete case in which it does not.

- A sibling swap at a checkpointed tip is undone by the next opening, and a swap with a wrong transaction count makes
  it fail (`RocksOps.SwapSoundIff`; `RocksCases.SwapAtCheckpointDiverges`, `RocksCases.SwapMiscountedFails`). Writing
  a checkpoint repairs both.
- A swap does not touch the transaction index. The comment relies on equal transaction lists, but the check compares
  only the transaction root in the metadata (`RocksRuns.SwapTxIndexIff`; `RocksCases.SwapMisindexes`).
- The prune comment says that memory never holds blocks below the newest checkpoint. Without a prior compaction it
  can, and reads below the cutoff are then answered from memory until the next opening (`RocksRuns.PruneForgetsIff`,
  `RocksStore.ReopenExactIff`; `RocksCases.PrunedReadSurvives`).
- A file store bootstrapped from a snapshot no longer opens once it has written a later checkpoint
  (`DiskStore.ReopenIff`; `DiskStore.CheckpointAboveSnapshotFails`).
- Replay has no counterpart to the epoch transitions of assembly (`Replay.ReplayAgreesIff`;
  `Replay.EpochReplayFails`).
- A burn rate above 10,000 basis points creates tokens (`Ledger.FeesConservedIff`; `Ledger.ExcessBurnInflates`).
  Governance proposals with such rates are rejected when decoded.
- The replacement bump is below ten percent for every fee that is not a multiple of ten, and for fees whose bump
  saturates (`Mempool.TenPercentIff`; `Mempool.BumpFails`).
- The orphan cache documents memory bounded by its capacity, but its queue keeps hashes of removed blocks
  (`EvictionQueue.BoundedIffNoGap`; `OrphanCache.QueueOutgrowsCapacity`).
- A full orphan cache is documented to evict its oldest entry. A block that was removed and inserted again is found at
  its old place in the queue and goes too early (`EvictionQueue.RunOldestFirstIff`, and `EvictionQueue.EvictsOldestIff`
  for one state; `EvictionQueue.YoungerEvictedFirst`).
- The specification allows precommits of different rounds to be combined, and validation accepts them. Certificates of
  two rounds can then name different blocks, or another block than correct nodes commit, unless the rounds are adjacent
  (`MixedRounds.SafeDistanceIff`; `MixedRounds.MixedRoundsDisagree`, `MixedRounds.MixedRoundsMissDecision`). It is enough
  that a quorum of the signatures is in two adjacent rounds (`Finality.CertificatesAgree`,
  `Finality.CertificateMatchesDecision`).
- The specification claims that every height is decided under eventual synchrony, and lets a locked validator unlock on
  a later polka for another block. The handlers do not: a locked validator votes nil on every other proposal. Correct
  validators locked on different blocks can then not decide by themselves (`Liveness.DecidesIff`;
  `Standstill.CorrectCanStall`).
- The Nakamoto threshold is rounded down (`Nakamoto.StopIsExactIff`; `Nakamoto.RoundingMatters`).

## Assumptions

- Block hashes are a free constructor over header and transaction hashes; Merkle branch hashing is collision-free and
  never yields a leaf; signature verification is an arbitrary predicate, and for `Finality` a verifying signature of a
  correct validator means that it sent the vote, in the signed round where the preimage names one.
- A node's vote store receives only sent votes of members of the validator set, as the comments ask of callers.
- Payload execution, gas and fee schedules, the base-fee update, governance tallies, unbonding, key rotation, key
  activation, epoch transitions and roots are arbitrary deterministic functions (`Execution.Rules`). Replay assumes
  that payloads leave the base fee alone and that pool entries are the encoding of their transactions; conservation
  assumes that the supply fits 128 bits; the nonce count assumes that payloads leave existing nonces alone, and
  `BlockEnd` that no step but the advance touches the height. `Replay.ReplayAgreesIff` and
  `Replay.ReplayReproducesIff` assume that state roots commit to the state.
- A database batch and a file rename are atomic, and file-system steps survive a crash in order.

## Model

| member | source | states |
|---|---|---|
| `Quorum.QuorumSize` | crates/pqc-consensus/src/quorum.rs:13-15 | the quorum is the least count strictly above two thirds |
| `Quorum.QuorumOverlap` | crates/pqc-consensus/src/quorum.rs:13-15 | any two quorums share at least n/3 + 1 members |
| `Quorum.QuorumsShareCorrect` | crates/pqc-consensus/src/quorum.rs:13-15 | when n + f is below two quorums, any two quorums share a member that is not faulty |
| `Round.VoteStore.Record` | crates/pqc-consensus/src/round.rs:218-248 | the first vote per key wins; a second vote with another hash is reported as evidence and not stored |
| `Round.ConsensusRound.ProposalReceived` | crates/pqc-consensus/src/round.rs:382-397 | the handler makes exactly the state change and actions of its specification: prevote the proposal, or nil when locked on another block |
| `Round.ConsensusRound.ProposeTimeout` | crates/pqc-consensus/src/round.rs:399-409 | without a proposal the node prevotes nil |
| `Round.ConsensusRound.PrevoteReceived` | crates/pqc-consensus/src/round.rs:413-440 | a polka in the current round locks the block and precommits it |
| `Round.ConsensusRound.PrevoteTimeout` | crates/pqc-consensus/src/round.rs:444-454 | without a polka the node precommits nil |
| `Round.ConsensusRound.PrecommitReceived` | crates/pqc-consensus/src/round.rs:458-485 | records the vote, then decides in any undecided phase once the round has a commit quorum; `Handlers.CommitIff` says exactly when |
| `Round.ConsensusRound.PrecommitTimeout` | crates/pqc-consensus/src/round.rs:489-497 | an undecided node moves to the next round and keeps its lock |
| `Round.ConsensusRound.CommittedBlockHash` | crates/pqc-consensus/src/round.rs:504-525 | for every iteration order of the vote map, the answer is a hash with a commit quorum in the least round that has one, or nothing if no round has one |
| `Round.QuorumHasVote` | crates/pqc-consensus/src/round.rs:504-525 | scanning the recorded precommits of a round misses no hash with a quorum |
| `Agreement.UnderOneThirdIsFew` | crates/pqc-consensus/src/quorum.rs:13-15 | fewer than a third faulty is enough for every theorem below |
| `Agreement.CountBoundsVoters` | crates/pqc-consensus/src/round.rs:267-303 | a count in one node's store never exceeds the number of distinct senders of that vote |
| `Agreement.RecordedKeeps` | crates/pqc-consensus/src/round.rs:218-248 | recording a sent vote keeps the store within the sent votes and its evidence genuine |
| `Agreement.SendPrevote` | crates/pqc-consensus/src/round.rs:382-409 | sending a prevote keeps the one-vote and lock discipline |
| `Agreement.SendPrecommit` | crates/pqc-consensus/src/round.rs:413-454 | sending a precommit keeps the discipline: it is nil or backed by a polka that becomes the lock |
| `Agreement.ReactVoting` | crates/pqc-consensus/src/round.rs:382-496 | every handler, on any input, keeps the voting invariant of its node |
| `Agreement.LaterPolkasAgree` | crates/pqc-consensus/src/round.rs:382-440 | after precommits of a quorum for a block, all in one round or the next, every polka of every later round is for that block |
| `Agreement.PinnedAgree` | crates/pqc-consensus/src/round.rs:382-485 | blocks with such precommits, in whatever rounds of one height, are one block |
| `Agreement.CommitQuorumsAgree` | crates/pqc-consensus/src/round.rs:413-485 | all commit quorums of one height, in whatever rounds, name one block |
| `Agreement.StepKeepsInv` | crates/pqc-consensus/src/round.rs:382-496 | every step of a correct or faulty node keeps the global invariant |
| `Agreement.RunKeepsInv` | crates/pqc-consensus/src/round.rs:382-496 | the invariant holds at every point of every run |
| `Agreement.AgreementHolds` | crates/pqc-consensus/src/round.rs:382-496 | any two `Commit` actions of correct nodes, at any points of a run and in any rounds, name the same block |
| `Agreement.ValidityHolds` | crates/pqc-consensus/src/round.rs:382-496 | a committed block is not nil and some correct node received it as a proposal |
| `Agreement.CommittedHashIsDecision` | crates/pqc-consensus/src/round.rs:504-525 | a decided node answers exactly the block of its `Commit`, whatever late votes it recorded |
| `Agreement.DecidedIffCommitted` | crates/pqc-consensus/src/round.rs:499-525 | a node answers a hash exactly if it has returned a `Commit` |
| `Agreement.HandlersDiscipline` | crates/pqc-consensus/src/round.rs:382-496 | a correct node votes at most once per round and step, precommits a block only with its polka in its own store, and prevotes against an earlier precommit only after a polka for the new block in between |
| `Agreement.ReactPolkas` | crates/pqc-consensus/src/round.rs:413-440 | every handler keeps the polka behind each non-nil precommit in the node's own store |
| `Agreement.NoFalseEvidence` | crates/pqc-consensus/src/round.rs:218-248 | no correct node's store ever holds evidence against a correct node, and what it holds are two sent votes for different blocks |
| `Handlers.ActionsTellAll` | crates/pqc-consensus/src/round.rs:382-496 | every change of phase, round or lock comes with exactly one action, and every action with its change; so one prevote and one precommit per round |
| `Handlers.CommitIff` | crates/pqc-consensus/src/round.rs:458-485 | a precommit decides exactly in an undecided node, whatever its phase, that then holds a commit quorum of its own height and round |
| `Handlers.LockIff` | crates/pqc-consensus/src/round.rs:413-440 | a prevote makes a node lock and precommit exactly in its prevote phase and with a polka of its own height and round |
| `Handlers.PrevoteIff` | crates/pqc-consensus/src/round.rs:382-396 | a proposal gets the vote of exactly the nodes in their first phase that are not locked on another block, and nil from those locked |
| `Handlers.TimersCarryOn` | crates/pqc-consensus/src/round.rs:399-496 | timers alone carry a node to the next round with nil votes and its lock |
| `Handlers.EvidenceIff` | crates/pqc-consensus/src/round.rs:218-248 | whatever votes arrive, a store keeps the first per key and holds evidence against exactly the keys voted for with two hashes |
| `Liveness.CommitQuorumCarries` | crates/pqc-consensus/src/round.rs:458-485 | in every run, once a quorum of correct validators has precommitted a block, every undecided correct node of that round, in any phase, can go on to commit it |
| `Liveness.GoodRound` | specs/consensus.md:723-725 | from a common start of a round, if a quorum of correct validators is free to vote for a block, all correct ones can commit it in that round by themselves |
| `Liveness.SplitNeverDecides` | specs/consensus.md:723-725 | if there is no such block, no continuation by the correct validators ever decides, however many rounds it takes |
| `Liveness.DecidesIff` | specs/consensus.md:723-725 | at a common start of a round in any run, the correct validators can decide by themselves if and only if a quorum of them is free to vote for one block, and then all of them can |
| `Standstill.CorrectCanStall` | specs/consensus.md:723-725 | a run with one of four validators faulty after which the correct three can never decide by themselves |
| `CommitCertificate.NewPolicy` | crates/pqc-consensus/src/commit.rs:95-128 | a policy is accepted exactly if addresses are distinct and the threshold is within range; the default threshold is the quorum |
| `CommitCertificate.ValidatorByAddress` | crates/pqc-consensus/src/commit.rs:169-174 | finds a configured validator exactly if one has the address |
| `CommitCertificate.PreimageBinds` | crates/pqc-consensus/src/commit.rs:295-315 | two signed preimages are equal if and only if fork digest, mode, height, block and, where signed, round are |
| `CommitCertificate.ValidateBlockCommitQuorum` | crates/pqc-consensus/src/commit.rs:255-343 | accepts exactly the certificates with a quorum of distinct configured signers whose signatures verify, and otherwise reports an error that applies |
| `CommitCertificate.SignersInUniverse` | crates/pqc-consensus/src/commit.rs:255-343 | the signers of an accepted certificate are distinct configured validators that each signed |
| `CommitCertificate.CertificatesOverlap` | crates/pqc-consensus/src/commit.rs:255-343 | any two accepted certificates share at least n/3 + 1 validators with a verifying signature on both |
| `Finality.DisciplineIgnoresFaulty` | crates/pqc-consensus/src/round.rs:382-496 | further votes of faulty validators do not disturb the discipline of the correct ones |
| `Finality.CertificateIsPinned` | crates/pqc-consensus/src/commit.rs:255-343 | an accepted certificate in which a quorum signed for one round or the next, the others for any, gives precommits of a quorum in two adjacent rounds |
| `Finality.CloseIsAdjacent` | crates/pqc-consensus/src/commit.rs:295-315 | a certificate whose signatures all carry one round or the next is such a certificate |
| `Finality.CertificatesAgree` | crates/pqc-consensus/src/commit.rs:255-343 | two such certificates of one height, in whatever rounds, name the same block |
| `Finality.CertificateMatchesDecision` | crates/pqc-consensus/src/commit.rs:255-343 | such a certificate names the block that correct nodes committed |
| `MixedRounds.MoveIsReal` | crates/pqc-consensus/src/round.rs:382-496 | each move of a small game on visible node states is carried out by the handlers |
| `MixedRounds.FourRounds` | crates/pqc-consensus/src/round.rs:427-438 | a run of that game in which one correct validator precommits two blocks and two others follow one each, a given number of rounds later |
| `MixedRounds.MixedRoundsMissDecision` | crates/pqc-consensus/src/commit.rs:295-315 | for every distance above one, a run with one of four validators faulty in which a correct node commits one block while a certificate of two rounds at that distance is accepted for another, in either preimage mode |
| `MixedRounds.MixedRoundsDisagree` | crates/pqc-consensus/src/commit.rs:295-315 | for every distance above one, a run with one of four validators faulty after which certificates of two rounds at that distance are accepted for two blocks of one height, in either preimage mode |
| `MixedRounds.SafeDistanceIff` | specs/consensus.md:434-436 | in every network and run, certificates of two rounds at a distance name one block per height if and only if the distance is at most one |
| `Merkle.BinaryMerkleRoot` | crates/pqc-crypto/src/hash.rs:210-230 | the layer loop computes the recursively defined root |
| `Merkle.NextLayerInjective` | crates/pqc-crypto/src/hash.rs:218-228 | one layer determines the layer below it, odd self-pairing included, for distinct nodes |
| `Merkle.RootBinds` | crates/pqc-crypto/src/hash.rs:210-230 | for distinct leaves of any two lengths, equal roots if and only if equal lists |
| `Merkle.NoTreeIsEmpty` | crates/pqc-crypto/src/hash.rs:210-230 | no non-empty list has the root of the empty list |
| `Merkle.RepeatedLastLeafCollides` | crates/pqc-crypto/src/hash.rs:210-230 | without distinctness binding fails: an odd list and the same list with its last leaf repeated share a root |
| `Merkle.RootSplits` | crates/pqc-crypto/src/hash.rs:210-230 | the root over two full subtrees of one size hashes the left root before the right |
| `Prelude.BeValueConcat` | crates/pqc-light-client/src/lib.rs:291-308 | byte strings are read with the first bytes weighing most |
| `Committee.Pow128Mod` | crates/pqc-light-client/src/lib.rs:291-308 | 2^128 mod m is computed without leaving 128 bits |
| `Committee.CarryStep` | crates/pqc-light-client/src/lib.rs:291-308 | after a carry the corrected sum stays below the modulus, so no addition overflows even for m above 2^127 |
| `Committee.ShiftIn` | crates/pqc-light-client/src/lib.rs:291-308 | one bit step is doubling modulo m, with every 128-bit addition in range |
| `Committee.ShiftInByte` | crates/pqc-light-client/src/lib.rs:291-308 | eight bit steps append a byte modulo m |
| `Committee.ReduceU256BeModU128` | crates/pqc-light-client/src/lib.rs:291-308 | equals the big-endian value modulo m for every m up to 2^128 - 1 |
| `Committee.Draw` | crates/pqc-light-client/src/lib.rs:262-273 | the drawn index is the one whose prefix-sum interval contains the selector |
| `Committee.DrawUnique` | crates/pqc-light-client/src/lib.rs:262-273 | no other index has that interval |
| `Committee.SelectorsPerStake` | crates/pqc-light-client/src/lib.rs:262-273 | exactly as many selectors choose a validator as it has stake |
| `Committee.WeightedPick` | crates/pqc-light-client/src/lib.rs:262-273 | the walk finds that index and never falls back to the last one |
| `Committee.RankAll` | crates/pqc-light-client/src/lib.rs:220-281 | up to sixteen validators are returned all, in rank order |
| `Committee.RankedByStake` | crates/pqc-light-client/src/lib.rs:229-239 | in rank order heavier validators come first, then lower addresses, then earlier input positions |
| `Committee.DrawCommittee` | crates/pqc-light-client/src/lib.rs:240-281 | every member `i` is the one whose stake interval among the validators not drawn before contains hash chunk `i` modulo their total stake, until sixteen are drawn or no stake is left |
| `Committee.SelectCommittee` | crates/pqc-light-client/src/lib.rs:220-281 | up to sixteen validators: all of them in rank order; more: that draw |
| `Committee.CommitteeSound` | crates/pqc-light-client/src/lib.rs:240-281 | such a committee has min(16, validators with stake) distinct staked members |
| `Committee.CommitteeUnique` | crates/pqc-light-client/src/lib.rs:240-281 | stakes and hash chunks fix the committee |
| `Committee.RestAfter` | crates/pqc-light-client/src/lib.rs:262-281 | removing the drawn position leaves exactly the validators not drawn so far, in order |
| `Nakamoto.TopIsHeaviest` | scripts/compute-nakamoto.py:90-110 | no k operators outweigh the first k of the descending order |
| `Nakamoto.Sorted` | scripts/compute-nakamoto.py:104-104 | the operators, each once, by descending stake |
| `Nakamoto.Accumulate` | scripts/compute-nakamoto.py:105-110 | stops at the first prefix that reaches the threshold |
| `Nakamoto.GreedyIsMinimal` | scripts/compute-nakamoto.py:90-110 | that prefix is a smallest non-empty set reaching the threshold |
| `Nakamoto.StopIsCoefficient` | scripts/compute-nakamoto.py:90-110 | where the loop stops is the coefficient, or all operators if the threshold exceeds the total |
| `Nakamoto.NakamotoCoefficient` | scripts/compute-nakamoto.py:90-110 | returns the size of a smallest set reaching the threshold, zero for no stake; up to 10,000 basis points it is the documented size exactly if rounding is harmless |
| `Nakamoto.ThresholdWithinTotal` | scripts/compute-nakamoto.py:100-103 | up to 10,000 basis points the threshold never exceeds the total |
| `Nakamoto.OneMoreIff` | scripts/compute-nakamoto.py:103-109 | the first group to reach an amount is the smallest to reach one unit more if and only if no leading group holds exactly the amount |
| `Nakamoto.StopIsExactIff` | scripts/compute-nakamoto.py:90-110 | the answer is the size of a smallest set with the share itself, as documented, if and only if the share is a whole amount or no leading group holds exactly the rounded one |
| `Nakamoto.RoundingMatters` | scripts/compute-nakamoto.py:103-103 | stakes 33, 33, 33 and 1 at 3333 basis points: the answer is one, although no single operator has the share |
| `OrphanCache.BlockTreeCache.constructor` | crates/pqc-consensus/src/block_tree_cache.rs:73-83 | an empty cache with capacity at least one |
| `OrphanCache.BlockTreeCache.Insert` | crates/pqc-consensus/src/block_tree_cache.rs:106-140 | refreshes a known block, else inserts, evicting the first live queue entry when full; capacity and all indices hold; the evicted entry is the oldest if and only if every other one is queued again behind it, and an aligned queue stays so if and only if the hash is not still queued ahead of a cached one |
| `OrphanCache.BlockTreeCache.EvictOldest` | crates/pqc-consensus/src/block_tree_cache.rs:200-209 | removes exactly the first queued hash that is still cached, with the stale ones before it, so a full cache always frees a slot; that hash is the oldest if and only if every other cached one is queued again behind it |
| `OrphanCache.BlockTreeCache.Get` | crates/pqc-consensus/src/block_tree_cache.rs:143-153 | answers exactly the unexpired entries |
| `OrphanCache.BlockTreeCache.ChildrenOf` | crates/pqc-consensus/src/block_tree_cache.rs:155-168 | the unexpired children of a parent in ascending hash order, as a full scan would give |
| `OrphanCache.BlockTreeCache.Remove` | crates/pqc-consensus/src/block_tree_cache.rs:170-182 | removes one entry from both maps and no other |
| `OrphanCache.BlockTreeCache.PruneExpired` | crates/pqc-consensus/src/block_tree_cache.rs:184-198 | leaves exactly the unexpired entries and counts the rest |
| `OrphanCache.IndexedWith` | crates/pqc-consensus/src/block_tree_cache.rs:106-140 | adding an entry keeps the parent index exact |
| `OrphanCache.IndexedWithout` | crates/pqc-consensus/src/block_tree_cache.rs:170-182 | removing an entry keeps it exact, without empty sets |
| `EvictionQueue.KeysFitQueue` | crates/pqc-consensus/src/block_tree_cache.rs:200-209 | the queue is never shorter than the cache |
| `EvictionQueue.StaleStops` | crates/pqc-consensus/src/block_tree_cache.rs:200-209 | the first live hash is found, and what stays live stays queued |
| `EvictionQueue.InsertGap` | crates/pqc-consensus/src/block_tree_cache.rs:106-140 | an insert shortens the queue relative to the cache by exactly the stale hashes its eviction drops |
| `EvictionQueue.RemoveGap` | crates/pqc-consensus/src/block_tree_cache.rs:170-182 | removing a live block lengthens it by exactly one |
| `EvictionQueue.GapAccounts` | crates/pqc-consensus/src/block_tree_cache.rs:106-209 | over every run the queue exceeds the cache by exactly what removals left behind and evictions have not dropped |
| `EvictionQueue.BoundedIffNoGap` | crates/pqc-consensus/src/block_tree_cache.rs:37-38 | every continuation of inserts keeps the queue within capacity if and only if it lists no more hashes than are cached |
| `EvictionQueue.BoundedIffNothingLeft` | crates/pqc-consensus/src/block_tree_cache.rs:37-38 | after any run from an empty cache that is so if and only if evictions have dropped all that removals left behind |
| `EvictionQueue.EvictsOldestIff` | crates/pqc-consensus/src/block_tree_cache.rs:198-209 | in any state eviction takes the oldest entry if and only if every other cached hash is queued again behind all its entries |
| `EvictionQueue.OldestFirstIff` | crates/pqc-consensus/src/block_tree_cache.rs:14-17 | evicting one entry after the other always takes the oldest if and only if cached hashes were first queued in the order in which they were last queued |
| `EvictionQueue.AppendAlignedIff` | crates/pqc-consensus/src/block_tree_cache.rs:126-140 | appending a new hash keeps that order if and only if it held and the hash is not still queued ahead of a cached one |
| `EvictionQueue.StepAlignedIff` | crates/pqc-consensus/src/block_tree_cache.rs:106-182 | an insert, after any eviction it needs, or a removal keeps it if and only if the inserted hash is not still queued ahead of a cached one |
| `EvictionQueue.RunOldestFirstIff` | crates/pqc-consensus/src/block_tree_cache.rs:102-105 | a whole run from an empty cache is oldest-first at every point if and only if no insert brings back a hash still queued ahead of a cached one |
| `EvictionQueue.NewHashesKeepOrder` | crates/pqc-consensus/src/block_tree_cache.rs:102-105 | if every inserted hash is cached or not queued at all, no hash is ever queued twice and every point of the run is oldest-first |
| `EvictionQueue.HistoryOf` | crates/pqc-consensus/src/block_tree_cache.rs:106-209 | every sequence of inserts and removals has a history, ending where the run ends |
| `EvictionQueue.StampsMatch` | crates/pqc-consensus/src/block_tree_cache.rs:109-115 | over every run the last queue positions of cached hashes are in the order of their insertion times, refreshes not counted |
| `EvictionQueue.OldestByStamp` | crates/pqc-consensus/src/block_tree_cache.rs:14-17 | the oldest cached hash is exactly the one inserted first |
| `EvictionQueue.YoungerEvictedFirst` | crates/pqc-consensus/src/block_tree_cache.rs:104-105 | a run after which a full cache evicts the younger of its two entries |
| `OrphanCache.QueueOutgrowsCapacity` | crates/pqc-consensus/src/block_tree_cache.rs:37-38 | an empty cache of capacity one whose queue has any given length |
| `Chain.HashesDistinct` | crates/pqc-consensus/src/chain.rs:397-461 | a window never holds a hash twice |
| `Chain.AppendKeepsValid` | crates/pqc-consensus/src/chain.rs:240-253 | appending an accepted block keeps heights contiguous and parents linked |
| `Chain.SwapKeepsValid` | crates/pqc-consensus/src/chain.rs:277-349 | so does swapping the tip for a sibling |
| `Chain.SwapKeepsCommitments` | crates/pqc-consensus/src/chain.rs:277-349 | a swap changes the hash of the tip and keeps its height, parent, state root and transaction root |
| `Blocks.HashFixesMetadata` | crates/pqc-consensus/src/chain.rs:397-461 | accepted blocks with one hash have the same header, hash list and metadata, except for the counts |
| `Chain.CompactKeepsValid` | crates/pqc-consensus/src/chain.rs:221-238 | so does compacting at a window height |
| `Chain.CompactionIsInvisible` | crates/pqc-consensus/src/chain.rs:221-238 | compaction changes neither height, tip hash, acceptable next blocks nor the blocks kept |
| `Chain.IndexedAppend` | crates/pqc-consensus/src/chain.rs:240-253 | the two indices stay mutual inverses after an append |
| `Chain.IndexedSwap` | crates/pqc-consensus/src/chain.rs:277-349 | and after a swap |
| `Chain.IndexedCompact` | crates/pqc-consensus/src/chain.rs:221-238 | and after a compaction |
| `Chain.IndexedHash` | crates/pqc-consensus/src/chain.rs:397-461 | a consistent block with a known hash has a height of the window |
| `Chain.IndexedIff` | crates/pqc-consensus/src/chain.rs:397-461 | a hash is indexed exactly if a block of the window has it |
| `Chain.WindowErrorIff` | crates/pqc-consensus/src/chain.rs:397-461 | the first failing check, as a function of the window alone, is none exactly for the blocks that extend it |
| `Chain.SwapErrorIff` | crates/pqc-consensus/src/chain.rs:277-335 | the first failing check of a swap, as a function of the window alone, is none exactly for the siblings of the tip |
| `Chain.ChainStore.WithBase` | crates/pqc-consensus/src/chain.rs:118-126 | an empty window above a base |
| `Chain.ChainStore.Height` | crates/pqc-consensus/src/chain.rs:128-132 | the height of the window, also when compacted at the tip |
| `Chain.ChainStore.ValidateStoredBlock` | crates/pqc-consensus/src/chain.rs:397-461 | the ordered checks on the indices report exactly the first error of the window, and none exactly for the blocks that extend it |
| `Chain.ChainStore.AppendStoredBlock` | crates/pqc-consensus/src/chain.rs:240-253 | succeeds exactly for those blocks and otherwise reports that error and changes nothing |
| `Chain.ChainStore.CompactToCheckpoint` | crates/pqc-consensus/src/chain.rs:221-238 | for any height and hash, both indices lose exactly the heights up to it; at a window height with its hash the result is the compacted window |
| `Chain.ChainStore.ReplaceTipBlock` | crates/pqc-consensus/src/chain.rs:277-349 | succeeds exactly for siblings of the tip and returns the displaced block, and otherwise reports the first failing check and changes nothing |
| `RocksStore.CanonicalIsStored` | crates/pqc-consensus/src/storage_rocksdb.rs:555-563 | the hash a successor names is the hash of the stored block |
| `RocksStore.LoadedIff` | crates/pqc-consensus/src/storage_rocksdb.rs:307-313 | the load loop succeeds exactly if the first block links to the start and every count above it is right |
| `RocksStore.LoadedShape` | crates/pqc-consensus/src/storage_rocksdb.rs:307-313 | what it loads is a valid window of the stored blocks up to the tip |
| `RocksStore.ReopenFaithfulIff` | crates/pqc-consensus/src/storage_rocksdb.rs:214-326 | opening succeeds with the live height, tip hash and every read of a stored height if and only if the newest checkpoint names the canonical hash of its height and all counts above it are right |
| `RocksStore.ReopenExactIff` | crates/pqc-consensus/src/storage_rocksdb.rs:214-326 | it answers every read at every height as before if and only if moreover memory holds nothing below the oldest stored block |
| `RocksOps.AppendKeepsOk` | crates/pqc-consensus/src/storage_rocksdb.rs:382-401 | an append keeps window, block column, hash index and checkpoints consistent |
| `RocksOps.IndexTxsAt` | crates/pqc-consensus/src/storage_rocksdb.rs:1673-1676 | after indexing, exactly the listed transactions map to the height and all others are as before |
| `RocksOps.SwapKeepsOk` | crates/pqc-consensus/src/storage_rocksdb.rs:1414-1451 | so does a swap |
| `RocksOps.CheckpointKeepsOk` | crates/pqc-consensus/src/storage_rocksdb.rs:620-690 | so does a checkpoint |
| `RocksOps.CompactKeepsOk` | crates/pqc-consensus/src/storage_rocksdb.rs:701-708 | so does a compaction |
| `RocksOps.PruneKeepsOk` | crates/pqc-consensus/src/storage_rocksdb.rs:738-883 | so does a prune |
| `RocksOps.PruneKeepsLatest` | crates/pqc-consensus/src/storage_rocksdb.rs:825-841 | a prune keeps the newest checkpoint and no other |
| `RocksOps.AppendKeepsSound` | crates/pqc-consensus/src/storage_rocksdb.rs:382-401 | an append keeps the store reopenable |
| `RocksOps.SwapSoundIff` | crates/pqc-consensus/src/storage_rocksdb.rs:434-466 | a swap keeps it reopenable if and only if the candidate's transaction count is right and the tip height is not the newest checkpoint |
| `RocksOps.CheckpointRestoresSound` | crates/pqc-consensus/src/storage_rocksdb.rs:620-690 | writing a checkpoint makes the store reopenable whatever happened before |
| `RocksOps.CompactKeepsSound` | crates/pqc-consensus/src/storage_rocksdb.rs:701-708 | compaction keeps it reopenable |
| `RocksOps.PruneKeepsSound` | crates/pqc-consensus/src/storage_rocksdb.rs:738-883 | pruning keeps it reopenable |
| `RocksOps.ReopenKeepsOk` | crates/pqc-consensus/src/storage_rocksdb.rs:214-326 | a reopened store satisfies the invariant again |
| `RocksRuns.StepKeeps` | crates/pqc-consensus/src/storage_rocksdb.rs:214-883 | every operation of a run keeps invariant and reopenability |
| `RocksRuns.RunKeeps` | crates/pqc-consensus/src/storage_rocksdb.rs:214-883 | over every run of appends, prudent swaps, checkpoints, compactions, prunes and reopens the invariant holds |
| `RocksRuns.RunsReopenFaithfully` | crates/pqc-consensus/src/storage_rocksdb.rs:214-563 | at every point of such a run, opening rebuilds the same height, tip, stored reads and acceptable next blocks, and all reads exactly if memory holds nothing that was pruned |
| `RocksRuns.TidyRunsReopenExactly` | crates/pqc-consensus/src/storage_rocksdb.rs:730-737 | if every prune comes after a compaction past its cutoff, every state of the run reopens with the same answer to every read |
| `RocksRuns.FreshStoreOk` | crates/pqc-consensus/src/storage_rocksdb.rs:252-266 | a new store is where such runs start |
| `RocksRuns.BootstrapFaithfulIff` | crates/pqc-consensus/src/storage_rocksdb.rs:958-1068 | a store bootstrapped from a snapshot reopens to itself unless the snapshot is at height zero and names another genesis |
| `RocksRuns.PruneInvisible` | crates/pqc-consensus/src/storage_rocksdb.rs:738-883 | after a prune the store opens to the same window, every read at or above the cutoff is unchanged, and the block column holds nothing below |
| `RocksRuns.PruneKeepsAnswers` | crates/pqc-consensus/src/storage_rocksdb.rs:778-821 | hash index, transaction index and sibling archive answer as before at or above the cutoff and not at all below |
| `RocksRuns.PruneForgetsIff` | crates/pqc-consensus/src/storage_rocksdb.rs:730-737 | reads below the cutoff find nothing if and only if memory had already let go of those blocks |
| `RocksRuns.AppendKeepsTxIndex` | crates/pqc-consensus/src/storage_rocksdb.rs:1658-1679 | an append keeps every stored transaction mapped to the highest stored height that holds it, and nothing else |
| `RocksRuns.PruneKeepsTxIndex` | crates/pqc-consensus/src/storage_rocksdb.rs:792-802 | so does a prune |
| `RocksRuns.SwapTxIndexIff` | crates/pqc-consensus/src/storage_rocksdb.rs:1405-1451 | a swap does so if and only if both siblings hold the same transactions |
| `RocksRuns.RunKeepsTxIndex` | crates/pqc-consensus/src/storage_rocksdb.rs:1658-1679 | over every run whose swaps keep the transactions the index is exact |
| `RocksRuns.CheckpointRootsIff` | crates/pqc-consensus/src/storage_rocksdb.rs:620-690 | a checkpoint keeps the roots of checkpoints equal to those of their blocks if and only if it is given the root its block announces |
| `RocksRuns.AcceptedIsAnnounced` | crates/pqc-consensus/src/storage_rocksdb.rs:650-666 | with the tip in memory that is the root a checkpoint must have to be accepted |
| `RocksRuns.RunKeepsRoots` | crates/pqc-consensus/src/storage_rocksdb.rs:620-690 | over every run with such checkpoints, through swaps, prunes and restarts, each checkpoint of a stored block has the state root of that block |
| `RocksRuns.SwapBack` | crates/pqc-consensus/src/storage_rocksdb.rs:1414-1451 | the displaced block is archived, and swapping it back restores window, blocks and both indices |
| `RocksRuns.CheckpointedSwapDiverges` | crates/pqc-consensus/src/storage_rocksdb.rs:434-466 | after any swap of a checkpointed tip the store opens onto the displaced block |
| `RocksRuns.MiscountedSwapFails` | crates/pqc-consensus/src/storage_rocksdb.rs:434-466 | after any swap to a wrong count above the newest checkpoint the store does not open |
| `RocksCases.SwapAtCheckpointDiverges` | crates/pqc-consensus/src/storage_rocksdb.rs:434-466 | a concrete store for the first |
| `RocksCases.SwapMiscountedFails` | crates/pqc-consensus/src/chain.rs:418-418 | a concrete store for the second |
| `RocksCases.SwapMisindexes` | crates/pqc-consensus/src/storage_rocksdb.rs:1405-1408 | a concrete swap with an equal transaction root and another list, whose transaction the index does not find |
| `RocksCases.PrunedReadSurvives` | crates/pqc-consensus/src/storage_rocksdb.rs:730-737 | a concrete pruned store that still answers below the cutoff from memory |
| `RocksDb.FindLatestCheckpoint` | crates/pqc-consensus/src/storage_rocksdb.rs:1533-1566 | the backward scan finds the newest checkpoint of positive height, or reports that there is none |
| `RocksDb.DeleteBelow` | crates/pqc-consensus/src/storage_rocksdb.rs:768-821 | a scan deletes exactly the entries below the cutoff, and its count and what is kept add up |
| `RocksDb.PruneCheckpoints` | crates/pqc-consensus/src/storage_rocksdb.rs:825-841 | deletes all checkpoints but the newest and counts them |
| `RocksDb.PruneColumns` | crates/pqc-consensus/src/storage_rocksdb.rs:760-841 | the batch of a prune and its statistics, column by column |
| `RocksDb.IndexAll` | crates/pqc-consensus/src/storage_rocksdb.rs:1673-1676 | every listed transaction is indexed at the height, over what was there |
| `RocksDb.RocksDbChainStore.Open` | crates/pqc-consensus/src/storage_rocksdb.rs:214-326 | succeeds exactly if the load from the starting point does, with that window in memory, and otherwise reports the first failure |
| `RocksDb.LoadErrorIff` | crates/pqc-consensus/src/storage_rocksdb.rs:307-318 | the first failure of loading is none exactly if the blocks load up to the tip |
| `RocksDb.RocksDbChainStore.LoadTail` | crates/pqc-consensus/src/storage_rocksdb.rs:307-318 | appends the stored blocks up to the tip, or reports the first missing or refused one, or a window above the tip |
| `RocksDb.RocksDbChainStore.AppendStoredBlock` | crates/pqc-consensus/src/storage_rocksdb.rs:382-401 | succeeds exactly for blocks that extend the window, otherwise reports the first failing check; memory and database change together or not at all |
| `RocksDb.RocksDbChainStore.PersistToDb` | crates/pqc-consensus/src/storage_rocksdb.rs:1389-1401 | writes block, hash index, transaction index and tip height |
| `RocksDb.RocksDbChainStore.ReplaceCanonicalAtHeight` | crates/pqc-consensus/src/storage_rocksdb.rs:434-466 | succeeds exactly for siblings of the tip, otherwise reports the first failing check; memory and database change together or not at all |
| `RocksDb.RocksDbChainStore.WriteTrustedCheckpoint` | crates/pqc-consensus/src/storage_rocksdb.rs:620-690 | accepted exactly at the tip height and with the announced root, otherwise with the first error; records and returns tip height, tip hash and that root |
| `RocksDb.RocksDbChainStore.CompactChainToCheckpoint` | crates/pqc-consensus/src/storage_rocksdb.rs:701-708 | leaves the database alone; at a window height with its hash the window is compacted |
| `RocksDb.RocksDbChainStore.PruneBlocksBelow` | crates/pqc-consensus/src/storage_rocksdb.rs:738-883 | goes ahead exactly after the three pre-flight checks, prunes every column in one batch, and reports what it deleted |
| `RocksDb.RocksDbChainStore.ReadStoredBlockAtHeight` | crates/pqc-consensus/src/storage_rocksdb.rs:555-563 | memory first, then the database |
| `DiskStore.ReopenIff` | crates/pqc-consensus/src/storage.rs:258-434 | a quiescent file store reopens to the same tip with the same answer to every read at every height if and only if it keeps full history or its checkpoint is still the imported snapshot |
| `DiskStore.StagedBlock` | crates/pqc-consensus/src/storage.rs:940-954 | before the first rename of a block write nothing is published |
| `DiskStore.PlanCompletes` | crates/pqc-consensus/src/storage.rs:923-960 | a completed write publishes block, hash index and tip, or the checkpoint, and leaves no staged file |
| `DiskStore.CrashLeavesStaging` | crates/pqc-consensus/src/storage.rs:923-960 | at every crash point strictly inside a write some staged file is left |
| `DiskStore.PublishesComplete` | crates/pqc-consensus/src/storage.rs:923-960 | only completely written files are renamed into place |
| `DiskStore.UnnamedCheckpointIgnored` | crates/pqc-consensus/src/storage.rs:295-330 | with full history a checkpoint that the next block does not name has no effect on opening |
| `DiskStore.WriteKeepsOk` | crates/pqc-consensus/src/storage.rs:923-960 | a completed write leaves a consistent store of the new window |
| `DiskStore.CrashSafe` | crates/pqc-consensus/src/storage.rs:258-434 | whatever prefix of a write survives, the next opening gives the old window, the new one, or refuses; the exact exception is a checkpoint above the snapshot of a bootstrapped store |
| `DiskStore.OpenedKeepsOk` | crates/pqc-consensus/src/storage.rs:258-434 | the window found by opening stands for the same history |
| `DiskStore.DiskStepKeeps` | crates/pqc-consensus/src/storage.rs:258-434 | a write, or a restart after a crash that kept none or all of one, keeps the store consistent |
| `DiskStore.DiskRunsStayOk` | crates/pqc-consensus/src/storage.rs:258-434 | over any number of writes, crashes and restarts the store is a view of one linked history and reopens to itself |
| `DiskStore.FreshDiskOk` | crates/pqc-consensus/src/storage.rs:776-836 | a fresh store and a store bootstrapped from a snapshot are where such runs start |
| `DiskStore.BootstrapCrashSafe` | crates/pqc-consensus/src/storage.rs:826-829 | at every crash point of importing a snapshot the next opening gives the empty store, refuses, or starts at the snapshot; exactly a height-zero snapshot of another genesis is lost |
| `DiskStore.CheckpointAboveSnapshotFails` | crates/pqc-consensus/src/storage.rs:277-289 | a concrete bootstrapped store that no longer opens after a later checkpoint |
| `DiskDb.Perform` | crates/pqc-consensus/src/storage.rs:940-957 | executes a plan up to a crash point |
| `DiskDb.ScanIff` | crates/pqc-consensus/src/storage.rs:352-393 | the pass over the heights succeeds exactly if all files are right and the blocks load, and then with the loaded window |
| `DiskDb.CheckInventory` | crates/pqc-consensus/src/storage.rs:395-404 | reports exactly the first directory that holds anything but the expected files |
| `DiskDb.OpenResultIff` | crates/pqc-consensus/src/storage.rs:258-434 | the ordered checks of an opening all pass exactly if the specified opening succeeds, with its window, and report an incomplete write exactly if a staged file exists |
| `DiskDb.DiskChainStore.Open` | crates/pqc-consensus/src/storage.rs:258-434 | returns the window, or the first error in the order of the checks |
| `DiskDb.DiskChainStore.LoadAll` | crates/pqc-consensus/src/storage.rs:352-393 | one pass checks every height and appends the blocks above the base |
| `DiskDb.DiskChainStore.LoadTail` | crates/pqc-consensus/src/storage.rs:352-427 | the pass, the inventories, then height and hash of the tip |
| `DiskDb.DiskChainStore.AppendStoredBlock` | crates/pqc-consensus/src/storage.rs:480-499 | memory follows only a completed write; a crash leaves exactly a prefix of its steps on disk |
| `DiskDb.DiskChainStore.WriteTrustedCheckpoint` | crates/pqc-consensus/src/storage.rs:615-683 | accepted exactly at the tip height and with the announced root; a crash leaves exactly a prefix of its steps |
| `Ledger.TotalUpdate` | crates/pqc-state/src/apply.rs:291-310 | setting an account shifts the supply by the change of its balance |
| `Ledger.CreditTotal` | crates/pqc-state/src/apply.rs:291-310 | a credit, to an existing or a new account, adds exactly its amount |
| `Ledger.SettleOnlySender` | crates/pqc-state/src/apply.rs:379-399 | settlement counts one nonce of the sender and leaves every other account as it is |
| `Ledger.SettleTotal` | crates/pqc-state/src/apply.rs:379-399 | settlement takes exactly fee and tip out of the supply |
| `Ledger.ShareWithin` | crates/pqc-state/src/apply.rs:249-253 | a share of at most 10,000 basis points never exceeds its amount, saturation included |
| `Ledger.Remainder` | crates/pqc-state/src/apply.rs:269-278 | priority share, rounding remainder and pool shares add up to the fees |
| `Ledger.DistributeTotal` | crates/pqc-state/src/apply.rs:233-289 | the supply grows by the larger of fees and burn |
| `Ledger.FeesConservedIff` | crates/pqc-state/src/apply.rs:233-289 | every fee is credited exactly once if and only if the burn does not exceed the fees, which holds for every rate up to 10,000 |
| `Ledger.DistributeShares` | crates/pqc-state/src/apply.rs:233-289 | each balance grows by exactly the burn, proposer part and pool shares due to its address, whatever roles coincide or repeat |
| `Ledger.ShareIs` | crates/pqc-state/src/apply.rs:248-271 | a share in basis points is the exact fraction rounded down, with the product saturating at 128 bits |
| `Ledger.PartsFollowRates` | crates/pqc-state/src/apply.rs:248-271 | burn and proposer priority are their rates of the fees, rounded down |
| `Ledger.DistributePays` | crates/pqc-state/src/apply.rs:233-289 | each address gains, for its roles together, the burn rate of the fees, the remainder after equal pool parts, and one pool part per listing, where the parts are fixed by the rates alone |
| `Ledger.DistributePaysAlone` | crates/pqc-state/src/apply.rs:233-289 | without a pool the proposer gets all that is not burned, and nobody anything if the burn takes it all |
| `Ledger.FifthToProposer` | crates/pqc-state/src/apply.rs:270-281 | a concrete split of 1000 into 200, 400 and 400 |
| `Ledger.ExcessBurnInflates` | crates/pqc-state/src/apply.rs:245-260 | a concrete rate above 10,000 that creates tokens |
| `Execution.ApplyTotal` | crates/pqc-state/src/apply.rs:100-140 | for any payloads, an applied transaction changes the balances by what its payload moves less exactly the charged fee and the tip |
| `Execution.AppliesIff` | crates/pqc-state/src/apply.rs:100-140 | a transaction applies if and only if its gas is scheduled, its payload succeeds or it is out of gas, and the sender can then pay fee and tip |
| `Execution.OutOfGasTakesAll` | crates/pqc-state/src/apply.rs:108-116 | out of gas, the whole offered fee and the tip leave the sender without refund, and nothing else changes but the nonce |
| `Execution.InGasTakesActual` | crates/pqc-state/src/apply.rs:118-140 | otherwise the actual fee is charged, and what was offered beyond it is the refund |
| `Execution.ApplyNonce` | crates/pqc-state/src/apply.rs:100-140 | an applied transaction counts one nonce of its sender and no other |
| `Execution.ApplyKeepsBaseFee` | crates/pqc-state/src/apply.rs:100-140 | an applied transaction leaves the adaptive base fee alone if its payload does |
| `Execution.StateStore.CreditAccount` | crates/pqc-state/src/apply.rs:291-310 | credits or creates one account |
| `Execution.StateStore.SettleSender` | crates/pqc-state/src/apply.rs:379-399 | debits the sender, or fails and changes nothing |
| `Execution.StateStore.DistributeBlockFees` | crates/pqc-state/src/apply.rs:233-289 | carries out the distribution the conservation lemmas are about |
| `Execution.StateStore.CreditPool` | crates/pqc-state/src/apply.rs:284-288 | the loop credits one share per listed address |
| `Execution.StateStore.ApplyTx` | crates/pqc-state/src/apply.rs:100-140 | commits the working copy exactly on success; a failed transaction leaves no trace |
| `Mempool.OneEntryPerSlot` | crates/pqc-mempool/src/pool.rs:66-74 | a sender has at most one pending entry per nonce |
| `Mempool.TenPercentIff` | crates/pqc-mempool/src/admission.rs:154-156 | every fee that may replace is at least ten percent above the old one if and only if the old fee is a multiple of ten and its bump does not saturate |
| `Mempool.BumpIff` | crates/pqc-mempool/src/admission.rs:154-156 | the weaker guarantee: the required replacement fee is at least the old one, and above it, exactly within stated bounds |
| `Mempool.BumpFails` | crates/pqc-mempool/src/admission.rs:154-156 | a fee of 16 may replace 15, 9 may replace 9, and the largest fee gives way to a cheaper one |
| `Mempool.OutbidsMeans` | crates/pqc-mempool/src/admission.rs:154-159 | a replacement pays at least the old fee, up to the saturation cap, and at least the old tip; for fees in tens exactly ten percent more is enough |
| `Mempool.SlotsNeverFall` | crates/pqc-mempool/src/admission.rs:112-199 | over any number of admissions an occupied slot stays occupied and gets no cheaper in fee or tip |
| `Mempool.Pool.Insert` | crates/pqc-mempool/src/pool.rs:66-74 | puts an entry into both indices, over what was there; they stay inverse if its slot and hash were free |
| `Mempool.Pool.Evict` | crates/pqc-mempool/src/pool.rs:80-88 | removes an entry from both indices |
| `Mempool.Pool.EvictStale` | crates/pqc-mempool/src/pool.rs:92-102 | removes exactly the sender's entries below the nonce |
| `Mempool.Pool.TryAdmit` | crates/pqc-mempool/src/admission.rs:49-199 | admits exactly what no check refuses and otherwise reports the first refusal; a replacement takes over its slot and nothing else changes; the premium cap holds |
| `Assembly.OrderLaws` | crates/pqc-consensus/src/engine.rs:318-326 | the comparison is a strict total order on entries with distinct hashes |
| `Assembly.OrderedByFee` | crates/pqc-consensus/src/engine.rs:318-326 | entries come by fee, then tip, highest first, then by sender and nonce, lowest first |
| `Assembly.IncludedOrdered` | crates/pqc-consensus/src/engine.rs:152-196 | the included entries keep that order |
| `Assembly.NextEntry` | crates/pqc-consensus/src/engine.rs:152-196 | an entry is deferred exactly if the bytes included so far leave no room, else skipped with its error exactly if it does not apply to the state so far, else included |
| `Assembly.TakeAllGas` | crates/pqc-consensus/src/engine.rs:149-176 | the block gas is the gas of the included entries, up to the 64-bit limit |
| `Assembly.AssembledExtendsIff` | crates/pqc-consensus/src/engine.rs:282-316 | an assembled block extends a chain if and only if it was assembled for its next height and on its tip |
| `Assembly.AssembledBinds` | crates/pqc-consensus/src/engine.rs:282-316 | its hash commits to height, parent, timestamp, proposer, included hashes and state root |
| `Assembly.AssembledCounts` | crates/pqc-consensus/src/engine.rs:282-316 | its counts add up to the pending entries and its bytes to those of the included ones |
| `Assembly.OrderedUnique` | crates/pqc-consensus/src/engine.rs:139-140 | sequences with the same entries in that order are equal |
| `Assembly.PoolFixesOrder` | crates/pqc-consensus/src/engine.rs:139-140 | assembly order depends on the pool's contents only |
| `Assembly.TakeAllPartitions` | crates/pqc-consensus/src/engine.rs:152-196 | every pending entry ends in exactly one of included, deferred and skipped |
| `Assembly.TakeAllFits` | crates/pqc-consensus/src/engine.rs:152-157 | the included bytes are counted, saturating at 64 bits, and stay within the limit |
| `Assembly.TakeAllConserves` | crates/pqc-consensus/src/engine.rs:152-196 | for any payloads, a block changes the balances by what its payloads move less what is charged, and collects exactly that, up to the 128-bit limit |
| `Assembly.NoncesCountInclusions` | crates/pqc-consensus/src/engine.rs:152-196 | an account's nonce grows by exactly the number of its included transactions, out-of-gas ones too |
| `Assembly.BlockConservesIff` | crates/pqc-consensus/src/engine.rs:152-235 | for any payloads, executing a block and distributing its fees changes the balances by exactly what its payloads move if and only if the burn does not exceed the fees, and otherwise by the excess more |
| `Assembly.MovesShift` | crates/pqc-state/src/apply.rs:142-180 | if each payload only moves value between balances and holdings such as bonds, the balances gain exactly what the holdings lose |
| `Assembly.BlockKeepsWealthIff` | crates/pqc-consensus/src/engine.rs:152-235 | balances and such holdings together are then conserved by a block if and only if the burn does not exceed the fees |
| `Assembly.PoolLeft` | crates/pqc-consensus/src/engine.rs:152-196 | at every point of the loop the pool is what is unprocessed or deferred and not superseded |
| `Assembly.PoolLeftIff` | crates/pqc-consensus/src/engine.rs:152-196 | after a block the pool holds exactly the deferred entries that no included entry of their sender, of equal or higher nonce, supersedes |
| `Replay.VerifyStructure` | crates/pqc-consensus/src/recovery.rs:334-411 | accepts exactly the hash-linked windows whose counts are right, and otherwise reports the first structural error |
| `Replay.ReplayMatchesFold` | crates/pqc-consensus/src/recovery.rs:166-214 | replaying only the included transactions at the block's base fee gives the same state, fees and gas as assembly |
| `Replay.ReplayAssembledIff` | crates/pqc-consensus/src/recovery.rs:145-314 | replay of an assembled block passes every check if and only if the epoch transitions of its height leave the state root unchanged, and then yields the state before them |
| `Replay.ReplayOffBoundary` | crates/pqc-consensus/src/recovery.rs:145-314 | off the epoch boundary replay of an assembled block always succeeds, with the very state assembly left |
| `Replay.ReplayAgreesIff` | crates/pqc-consensus/src/engine.rs:272-280 | with roots that commit to the state, replay agrees with assembly if and only if the height is no epoch boundary or the transitions there do nothing |
| `Replay.EpochReplayFails` | crates/pqc-consensus/src/engine.rs:272-280 | a concrete boundary block whose replay reports another state root |
| `Replay.ProducedIsLinked` | crates/pqc-consensus/src/chain.rs:190-216 | the blocks of a production run form a linked window with right counts |
| `Replay.ReplayReproduces` | crates/pqc-consensus/src/recovery.rs:145-314 | replaying a whole production run without effective epoch transitions ends in exactly the state it reached |
| `Replay.ReplayReproducesIff` | crates/pqc-consensus/src/recovery.rs:145-314 | with roots that commit to the state, a whole production run replays if and only if no batch is at an epoch boundary whose transitions change the state, and otherwise fails with a state root mismatch |
| `Replay.FirstErrorStays` | crates/pqc-consensus/src/recovery.rs:175-213 | replay reports its first failing transaction |
| `Replay.FirstBadBlockStays` | crates/pqc-consensus/src/recovery.rs:163-307 | and its first failing block |
| `Replay.StructureIff` | crates/pqc-consensus/src/recovery.rs:334-411 | there is no structural error exactly for linked windows with right counts |
| `Replay.ReplayTxsSound` | crates/pqc-consensus/src/recovery.rs:172-211 | each replayed transaction encodes to its listed hash and applies |
| `Replay.ReplayBlockSound` | crates/pqc-consensus/src/recovery.rs:277-305 | a block replays only to the state root it announces, with its transaction root and hash right |
| `Replay.ReplayAllSound` | crates/pqc-consensus/src/recovery.rs:145-314 | so does every block of a window that replays |
| `Replay.SameRootSameState` | crates/pqc-consensus/src/recovery.rs:145-314 | with roots that commit to the state, windows ending in one state root replay to one state |
| `Engine.InsertOrdered` | crates/pqc-consensus/src/engine.rs:139-140 | insertion keeps the order and adds exactly one entry |
| `Engine.OrderedPending` | crates/pqc-consensus/src/engine.rs:139-140 | lists exactly the pool in assembly order, whatever the iteration order |
| `Engine.TakePending` | crates/pqc-consensus/src/engine.rs:152-196 | the loop over state and pool computes the fold and the pool that is left |
| `Engine.ReturnBonds` | crates/pqc-consensus/src/engine.rs:246-252 | returns every matured bond to an existing account |
| `Engine.SealBlock` | crates/pqc-consensus/src/engine.rs:198-270 | distribution, fee update, tallies, unbonding, rotations and height in their order, as `BlockEnd` characterises them |
| `BlockEnd.StepsInOrder` | crates/pqc-consensus/src/engine.rs:198-280 | for steps that log their calls: fee update, tallies, unbonding and rotations run once each, in this order and at the old height, then the activations at the new one, then epoch transitions at positive multiples of the duration |
| `BlockEnd.BlockAdvances` | crates/pqc-consensus/src/engine.rs:270-270 | a block moves the state on by exactly one height |
| `BlockEnd.RunAdvances` | crates/pqc-consensus/src/engine.rs:270-270 | a production run of n blocks by n |
| `BlockEnd.SealAdvances` | crates/pqc-consensus/src/recovery.rs:275-275 | so does the end of a replayed block |
| `BlockEnd.BondsReturned` | crates/pqc-consensus/src/engine.rs:245-252 | every exited operator with an account gets exactly its bonds, and no account is opened |
| `BlockEnd.SealPays` | crates/pqc-consensus/src/engine.rs:198-252 | the end of a block adds to an account exactly what the distribution pays it, to the active validators if there are any, and its returned bonds |
| `BlockEnd.ReplaySealPays` | crates/pqc-consensus/src/recovery.rs:213-270 | replay adds the same, and no fees where the proposer is no 32-byte address |
| `Engine.AssembleBlock` | crates/pqc-consensus/src/engine.rs:119-316 | accepted exactly for the next height and a 32-byte proposer, with the error of the first check that fails; state, block, skip reasons and pool are functions of the old state, pool contents and context |
| `Engine.ReplayTransactions` | crates/pqc-consensus/src/recovery.rs:175-214 | the inner loop of replay |
| `Engine.SealReplayed` | crates/pqc-consensus/src/recovery.rs:216-274 | the end of a replayed block is the same as that of an assembled one, except that only a 32-byte proposer is paid |
| `Engine.ReplayStored` | crates/pqc-consensus/src/recovery.rs:163-303 | one block of replay with its three checks |
| `Engine.ReplayInOrder` | crates/pqc-consensus/src/recovery.rs:163-307 | the outer loop of replay stops at the first failing block |
| `Engine.ReplayBlocksFromState` | crates/pqc-consensus/src/recovery.rs:145-314 | succeeds exactly if the blocks are a linked window that replays, else reports the first structural error or the first error of executing; returns the state, the tip hash and the root |

## Left out

- Finality.CertificateIsPinned: covers certificates in distributed mode with a quorum of signatures in two adjacent rounds; in legacy mode the signatures name no round.
- Finality.CertificatesAgree: the same restriction; `MixedRounds.MixedRoundsDisagree` shows that it fails in legacy mode and for rounds further apart.
- Finality.CertificateMatchesDecision: the same restriction, with `MixedRounds.MixedRoundsMissDecision`.
- MixedRounds.SafeDistanceIff: distances up to two below the last 32-bit round, where the counter leaves room for the run.
- State equality of replay across an epoch boundary whose transitions change the state; it is false there.
- Timers, message delays and fairness: `Liveness` says what can be decided, not when.
- Chain.ChainStore.ReplaceTipBlock: requires the tip block to be in memory; after a compaction at the tip the source panics.
- RocksDb.RocksDbChainStore.Open: requires checkpoint records to be stored under their own height, as all writers do.
- Engine.AssembleBlock: sorting is modelled as insertion sort; the result is the same because the order is total.
- Round.ConsensusRound.PrecommitTimeout: requires a round below the 32-bit limit, where the source panics.
- RocksDb.RocksDbChainStore.ReplaceCanonicalAtHeight: requires the tip block to be in memory, like the window operation it calls.
- Committee.SelectCommittee: requires the total stake of more than sixteen validators to fit 128 bits; the source panics beyond that.
- Committee.DrawCommittee: requires the total stake to fit 128 bits; the source panics beyond that.
- Committee.WeightedPick: requires the remaining stake to fit 128 bits and the selector to be below it, as the reduction ensures.
- Ledger.DistributeTotal: assumes that no balance saturates, which holds while the supply fits 128 bits.
- Assembly.BlockConservesIff: assumes the same of a block.
- Ledger.DistributePays: covers fees whose products with the rates fit 128 bits; beyond that `Ledger.ShareIs` gives the saturated amounts.
- BlockEnd.SealPays: assumes that the per-block updates leave balances alone, as they do in the source, and that no balance saturates.
- Mempool.Pool.TryAdmit: the branch that recovers from an inconsistent index cannot be reached under the invariant and is not modelled; decoding and validation verdicts are parameters.
- Heights, nonces and block numbers are unbounded; their 64-bit limits are not modelled except where the source saturates.
- The optional commit-quorum check in front of appends and swaps; it is modelled on its own in `CommitCertificate`.
- Record encodings (CBOR), format versions and migration, corrupted records, and the transaction-body check on reads.
- Full-history recovery on an empty window and importing a snapshot into a live store.
- Crashes between the blocks of a bootstrap tail as one unit: the snapshot and each block are covered as writes of their own.
- Unsynced writes that the operating system reorders.
- Real cryptography, networking, peer scoring, logging, metrics, database compaction and write-ahead logs.
- Block classification, envelopes, gas tables, algorithm registries, the storage fund and epoch helpers, which would only add easy members.
