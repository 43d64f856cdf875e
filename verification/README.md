# Verified models of four components of the node

The project states and proves properties of four stateful parts of the Substrate client in this
repository. For each part there is a model on values (datatypes and functions), theorems about every
input, every reachable state or every run of that model, and classes or methods in the form of the
source whose contracts tie each step to the model. `dafny verify dfyconfig.toml` checks everything.

## What is modelled

**BEEFY voter** (`BeefyPrimitives`, `Justification`, `Rounds`, `VoteTarget`, `VoterModel`,
`VoterInvariant`, `VoterSafety`, `VoterPending`, `VoterRuns`, `VoterTally`, `VoterBuffering`,
`VoterInit`, `VoterResume`, `BeefyWorker`). Votes are tallied per round, sessions queue up behind their
mandatory blocks, votes and justifications are triaged, buffered and handled, and the node votes on
targets of its own. The main results: no run finalizes past a mandatory block without its proof; two
nodes never emit proofs for different payloads of a block; a node never votes twice in a round; every
emitted proof verifies; a threshold of validators voting in an accepted round decides it in every run,
and no smaller number concludes it; what got into a buffer is handled by the first pass that reaches it;
the node votes exactly on the least step, and catching up takes a logarithmic number of rounds; the voter
built from the chain on first startup is in a state from which all of that holds, and startup succeeds
exactly on the chains it should. Resuming from saved state keeps all of that exactly if no validator set
was announced in between; otherwise a mandatory block is lost, which is shown.

**Freeing-bump allocator** (`PowerOfTwo`, `HeapLayout`, `HeapModel`, `FreeingBump`). Chunks, free lists
and counters as values on one level, and on the other raw bytes with eight-byte headers and free lists
linked through them. The main results: the byte-level allocator simulates the value model on every run;
the heap stays tiled by live and free chunks; allocation and freeing succeed exactly when they should; in
every run payloads change only by the client's own writes; an allocator is poisoned exactly after a
failure.

**Shared state cache** (`LruMap`, `BlockStates`, `CacheModel`, `CacheCoherence`, `CacheRuns`,
`CacheEffects`, `StorageCache`). An LRU cache of the best block's values and a list of at most twelve
recent blocks' changes serve states on any fork. The main result: after any interleaving of reads, best
and fork commits, reorganisations and dropped states, every read returns exactly what its block holds.
And the cache is of use: a reorganisation drops exactly what it must, and what a best block changed or
its state read is served on top of it without the backing state.

**Block-tree bookkeeping** (`Leaves`, `BlockTree`, `BlockDb`, `BlockDbRuns`, `BlockDbEffects`, `Pruning`,
`BlockDbReach`, `BlockBackend`, `IndexedBody`). Leaf set, children index, canonical number index, head
changes, finality, pruning of displaced branches, and bodies stored by reference. The main results: over
every run the number index is exactly the best chain, finality is never lost, and the leaves are the
childless blocks; each operation succeeds exactly when it should and changes exactly what it should;
finalizing a block of the best chain prunes exactly the displaced branches; importing a block as final
prunes blocks of its own chain exactly in two cases, one of them its parent when every block is sealed as
final, which is shown; a body reads back exactly if its renewed transactions are backed, and committing
and pruning it leaves the column unchanged.

## How to read the model

Signature checking is a predicate `valid(id, signature, commitment)`. Hash, key, payload and extrinsic
types are abstract. Block numbers, counts and sizes are unbounded, with 32-bit limits written out where
the code depends on them: in the allocator, where every address stays below 2^32 and an overflow or a
failed assertion of a checked build is an error that poisons the allocator, and in the voting target,
where the gap saturates at 32 bits.

What runs may assume of their surroundings is stated as a predicate on each event:

- Voter (`GoodEvent`): notifications continue where the last one stopped, with the headers' own session
  changes; arriving votes are validly signed for the set in charge of their block, and nobody else votes
  under the node's own authorities; arriving justifications verify; the key store signs validly with an
  authority of the session. `VotesAgainExactly` and `ProofVerifiesExactly` say what happens without the
  assumptions on own and on foreign votes.
- Allocator (`Allowed`, `WellBehavedRun`): the client leaves headers alone and frees only pointers
  to the payload of a chunk, live or already free, or ones too small to have a header; memory does not
  reach 2^32 bytes.
- Cache (`Enabled`): routes are routes of the block tree, blocks are committed on a state of their own
  parent, a hash has one set of changes and a number one above its parent's, and the size estimate is a
  function of the value. The order in which local reads are drained is arbitrary.
- Database (`GoodOp`): imported blocks are fresh, with a known parent unless first; the first becomes
  best; blocks are finalized only on the best chain; a leaf is not removed where that would make a block
  below the finalized height a leaf. `RemovalKeepsInvExactly` shows that the last is exactly needed and
  `ParentStaysListed` what goes wrong without it. `RemovalIsReached` reaches that removal; the check that
  the state of the removed block is still there (`substrate-ipfs/client/db/src/lib.rs:2240`) has to let it
  through, which a database that keeps all states does.
- Body: decoding reads back what was encoded, for an extrinsic no further, and equal hashes mean equal
  contents.

The route between two blocks and the order of a hash map are parameters or functions of the tree, not
computed. A failed operation on the database changes nothing.

## Model

| member | source | states |
|---|---|---|
| `VoteTarget.TargetExists` | substrate-ipfs/client/beefy/src/worker.rs:933-968 | below the session start the start itself is the only target; past it there is a target exactly when GRANDPA is at least the minimum ahead; a target lies above the best BEEFY block and not above GRANDPA |
| `VoteTarget.TargetIsExact` | substrate-ipfs/client/beefy/src/worker.rs:950-952 | past the mandatory block the step to the target is at least the minimum and half the gap (rounded up, saturating at 32 bits), is the minimum or a power of two, no smaller power of two would do, and it is the minimum only where that covers such a power |
| `VoteTarget.TargetHalvesGap` | substrate-ipfs/client/beefy/src/worker.rs:950-955 | past the mandatory block, finalizing the target closes at least half of the gap, or 2^31 blocks of a gap beyond 32 bits |
| `VoteTarget.CatchUpConverges` | substrate-ipfs/client/beefy/src/worker.rs:933-968 | with GRANDPA standing still, finalizing target after target goes strictly up, never past GRANDPA, and ends less than the minimum away |
| `VoteTarget.CatchUpIsLogarithmic` | substrate-ipfs/client/beefy/src/worker.rs:933-968 | a gap of k blocks within 32 bits is closed in at most floor(log2 k) + 1 rounds |
| `VoteTarget.CatchUpIsBounded` | substrate-ipfs/client/beefy/src/worker.rs:950-955 | any gap is closed in at most one round per 2^31 blocks and 32 more |
| `PowerOfTwo.NextPowerOfTwoIsLeast` | substrate-ipfs/client/beefy/src/worker.rs:951-952 | the rounding used for the target gives the least power of two that is large enough |
| `Justification.QuorumsIntersect` | substrate-ipfs/client/beefy/src/round.rs:59-62 | two sets of validators that reach the threshold share one that is not faulty, if at most (n-1)/3 are |
| `Justification.ThresholdBalances` | substrate-ipfs/client/beefy/src/round.rs:59-62 | the tolerated faults are the most below a third, the others reach the threshold alone, two quorums share more than the faulty, and with 3f+1 validators one vote less would not do |
| `Justification.Agreement` | substrate-ipfs/client/beefy/src/justification.rs:44-80 | no two proofs with different payloads for one number and validator set both verify, with at most a third of distinct validators faulty |
| `Justification.SignersCounted` | substrate-ipfs/client/beefy/src/justification.rs:62-71 | the count of valid positions is at least the number of distinct valid signers, and equal to it for distinct validators |
| `Rounds.ProofVerifiesExactly` | substrate-ipfs/client/beefy/src/round.rs:139-161 | the proof assembled from a round verifies for its number and the session's validators if and only if enough recorded signatures are valid for the session's commitment |
| `Rounds.ProducedProofVerifies` | substrate-ipfs/client/beefy/src/worker.rs:553-573 | a round that concludes with all recorded signatures valid yields a proof that the verifier accepts, signatures in validator order |
| `Rounds.SessionInvKept` | substrate-ipfs/client/beefy/src/round.rs:117-169 | adding a vote, taking off a round and concluding keep every tracked round current, voted on, and voted on by validators only |
| `Rounds.VotesAddUp` | substrate-ipfs/client/beefy/src/round.rs:39-47 | a vote that counts joins the voters of its round, whose signatures stay, and leaves every other round alone; one that is stale, foreign or repeated changes nothing |
| `Rounds.SelfVotesOnce` | substrate-ipfs/client/beefy/src/round.rs:112-115 | no self vote is due in a round with a recorded one, nor for a number that is concluded; concluding a number rules out no others |
| `Rounds.SessionRounds.constructor` | substrate-ipfs/client/beefy/src/round.rs:82-90 | a new session has no rounds, nothing done and an open mandatory block |
| `Rounds.SessionRounds.RecordVote` | substrate-ipfs/client/beefy/src/round.rs:117-137 | a vote counts exactly if it is not stale, by a validator and new in its round; the new state is the model's |
| `Rounds.SessionRounds.ShouldConclude` | substrate-ipfs/client/beefy/src/round.rs:139-161 | signatures come back, and the round is taken off, exactly when the threshold is reached |
| `Rounds.SessionRounds.ConcludeRound` | substrate-ipfs/client/beefy/src/round.rs:163-169 | older rounds go, the mandatory flag and the best number done move as in the model |
| `VoterInvariant.FinalizeShape` | substrate-ipfs/client/beefy/src/worker.rs:599-641 | finalizing an accepted number concludes the only session or drops the front of several, and emits the proof exactly when it is a new best |
| `VoterInvariant.AddSessionShape` | substrate-ipfs/client/beefy/src/worker.rs:152-164 | a new session replaces a finished one and queues behind unfinished ones |
| `VoterInvariant.HandleVoteShape` | substrate-ipfs/client/beefy/src/worker.rs:539-592 | a handled vote is recorded, and concludes the front session's round by the same finalization as a justification; taking the round off first makes no difference |
| `VoterInvariant.FinalizeKeepsInv` | substrate-ipfs/client/beefy/src/worker.rs:599-641 | queue, front session and buffers stay in order, and the accepted interval moves forward only |
| `VoterInvariant.HandleVoteKeepsInv` | substrate-ipfs/client/beefy/src/worker.rs:539-592 | the same for every vote not beyond the accepted interval |
| `VoterSafety.FinalizeProves` | substrate-ipfs/client/beefy/src/worker.rs:599-641 | emitted proofs verify and ascend, and no mandatory block drops out without its proof emitted |
| `VoterSafety.AssembledProofVerifies` | substrate-ipfs/client/beefy/src/worker.rs:553-573 | in every reachable state a concluding round yields a proof that verifies against the validators in charge of its block, within the accepted interval |
| `VoterSafety.OwnVoteIsAccepted` | substrate-ipfs/client/beefy/src/worker.rs:713-806 | the node's own vote is for a block in its own accepted interval, above the best BEEFY block, final for GRANDPA, under the session's set id |
| `VoterSafety.OwnVoteIsNew` | substrate-ipfs/client/beefy/src/worker.rs:750-758 | an own vote is for a round never voted on before and is going to be recorded |
| `VoterSafety.TryToVoteKeepsGood` | substrate-ipfs/client/beefy/src/worker.rs:698-806 | casting a vote keeps everything that holds in every state |
| `VoterSafety.NewSessionKeepsGood` | substrate-ipfs/client/beefy/src/worker.rs:416-450 | so does starting a session at an announcing block |
| `VoterRuns.FinalityKeepsGood` | substrate-ipfs/client/beefy/src/worker.rs:452-478 | so does a finality notification with any number of session changes |
| `VoterRuns.FinalityExactly` | substrate-ipfs/client/beefy/src/worker.rs:452-478 | a notification moves the best GRANDPA block and queues a session with the announced set for each announcing block on the way, in order, in place of a finished session; nothing else changes |
| `VoterTally.RoundConcludesExactly` | substrate-ipfs/client/beefy/src/worker.rs:539-573 | votes for an open accepted round emit a proof for it, with exactly a threshold of signatures, if and only if they and those on record come from that many validators; otherwise exactly these voters are on record and nothing else changes |
| `VoterTally.ArrivalsConcludeExactly` | substrate-ipfs/client/beefy/src/worker.rs:481-492 | the same for a run of arriving votes |
| `VoterTally.StepCarries` | substrate-ipfs/client/beefy/src/worker.rs:808-911 | whatever happens, an open accepted round is decided, or its session ends, or all its voters stay on record, joined by an arriving vote; no round with a threshold of votes is left open |
| `VoterTally.EnoughVotesDecide` | substrate-ipfs/client/beefy/src/worker.rs:539-573 | in every run, once a threshold of validators has voted in an accepted round, whatever else happens in between, a verified proof for its number or a later one is emitted, unless the session is over |
| `VoterTally.OwnTargetExactly` | substrate-ipfs/client/beefy/src/worker.rs:222-245 | a lagging voter votes on its mandatory block, one that is up to date as soon as GRANDPA is the minimum ahead, on the block the least step leads to |
| `VoterTally.OwnVoteExactly` | substrate-ipfs/client/beefy/src/worker.rs:713-806 | with payload, key and signature at hand the node sends a vote for the target, under the set id, unless it has voted in that round, and the vote counts like any other of a validator; otherwise nothing changes |
| `VoterBuffering.VoteIsBuffered` | substrate-ipfs/client/beefy/src/worker.rs:494-505 | a vote beyond the interval goes behind those for its number if and only if fewer than 600 numbers and 1000 votes for this one are buffered; no other vote, nor anything else, changes |
| `VoterBuffering.JustificationIsBuffered` | substrate-ipfs/client/beefy/src/worker.rs:526-533 | a justification beyond it is kept if and only if it is the first for its number and fewer than 2400 are; nothing else changes |
| `VoterBuffering.BufferedStays` | substrate-ipfs/client/beefy/src/worker.rs:644-695 | a run loses nothing buffered for a number that none of its passes reaches |
| `VoterBuffering.BufferedVoteIsHandled` | substrate-ipfs/client/beefy/src/worker.rs:644-695 | a vote that got into the buffer is handled by the first pass that finds its number accepted, whatever happens in between |
| `VoterBuffering.BufferedProofIsEmitted` | substrate-ipfs/client/beefy/src/worker.rs:663-677 | a justification that got into the buffer is emitted by that pass, unless its number is not above the best BEEFY block any more |
| `VoterBuffering.BufferedVotesDecide` | substrate-ipfs/client/beefy/src/worker.rs:679-694 | a pass decides every accepted round for which buffered and recorded votes come from a threshold of validators |
| `VoterPending.BufferVoteKeepsGood` | substrate-ipfs/client/beefy/src/worker.rs:494-505 | so does buffering a vote; at most 600 rounds of 1000 votes |
| `VoterPending.BufferJustificationKeepsGood` | substrate-ipfs/client/beefy/src/worker.rs:526-533 | so does buffering a justification; at most 2400 |
| `VoterPending.ProcessJustificationsGood` | substrate-ipfs/client/beefy/src/worker.rs:663-677 | so does a pass over the buffered justifications, after which exactly those beyond the interval are left |
| `VoterPending.ProcessJustificationsEmits` | substrate-ipfs/client/beefy/src/worker.rs:668-675 | that pass emits exactly the buffered justifications of the interval that are above the best BEEFY block, in ascending order |
| `VoterPending.ProcessVotesGood` | substrate-ipfs/client/beefy/src/worker.rs:679-694 | so does a pass over the buffered votes, after which exactly those beyond the interval are left |
| `VoterPending.ProcessVotesInOrder` | substrate-ipfs/client/beefy/src/worker.rs:679-694 | that pass is the handling, one after the other, of the buffered votes of the interval, by ascending number and within a number as they came |
| `VoterPending.VotesInOrderExactly` | substrate-ipfs/client/beefy/src/worker.rs:648-661 | the votes handled are, as a multiset, exactly the buffered votes whose number lies in the interval |
| `VoterRuns.PendingIsPartitioned` | substrate-ipfs/client/beefy/src/worker.rs:644-695 | a pass over the buffers keeps exactly what is beyond the interval, emits exactly the justifications within it above the best BEEFY block, in order, and handles each vote within the then valid interval once, in order |
| `VoterRuns.RunKeepsGood` | substrate-ipfs/client/beefy/src/worker.rs:808-911 | every run of events keeps the voter invariant, proofs verified, votes valid, and moves best blocks, interval, emitted and sent messages forward only |
| `VoterRuns.MandatoryNeverSkipped` | substrate-ipfs/client/beefy/src/worker.rs:93-173 | in every run each mandatory block at or below the best BEEFY block has a verified proof among those emitted |
| `VoterRuns.DiscardedForever` | substrate-ipfs/client/beefy/src/worker.rs:205-218 | a number once too old is discarded in every later state, and one no longer too new is never buffered again |
| `VoterRuns.VotesOnce` | substrate-ipfs/client/beefy/src/worker.rs:713-806 | in every run no two own votes are for one round, nor for one number if the payload depends on the number alone |
| `VoterRuns.VotesAgainExactly` | substrate-ipfs/client/beefy/src/worker.rs:750-802 | a vote just cast would be cast again if and only if the signer is no validator of the session or a vote in its name was on record before |
| `VoterRuns.NodesAgree` | substrate-ipfs/client/beefy/src/worker.rs:599-641 | whatever the runs of two nodes, their emitted proofs for a block carry the same commitment, with at most a third of its validators faulty |
| `VoterRuns.QueueDrains` | substrate-ipfs/client/beefy/src/worker.rs:79-85 | a run in which a lagging voter gets the proofs of its queued mandatory blocks as justifications emits them all and leaves it up to date |
| `VoterResume.ResumeIsGoodExactly` | substrate-ipfs/client/beefy/src/lib.rs:306-329 | a voter resumed from its saved state satisfies everything that runs keep if and only if no validator set was announced between the saved and the new best GRANDPA block |
| `VoterResume.ResumedVoterVotes` | substrate-ipfs/client/beefy/src/lib.rs:306-329 | if none was, an up-to-date resumed voter votes as soon as GRANDPA is the newly given minimum ahead, and not in a round it voted in before |
| `VoterResume.ResumeSkipsMandatory` | substrate-ipfs/client/beefy/src/lib.rs:314-322 | otherwise an up-to-date voter, given a proof for a later block, finalizes past the announcing block, which is neither proved nor queued |
| `BeefyWorker.Retain` | substrate-ipfs/client/beefy/src/worker.rs:155-156 | keeps exactly the unfinished sessions, in order |
| `BeefyWorker.VoterOracle.TryPrune` | substrate-ipfs/client/beefy/src/worker.rs:152-157 | prunes as the model does |
| `BeefyWorker.VoterOracle.AddSession` | substrate-ipfs/client/beefy/src/worker.rs:160-164 | pushes and prunes as the model does |
| `BeefyWorker.VoterOracle.Finalize` | substrate-ipfs/client/beefy/src/worker.rs:167-173 | concludes the front session and prunes, or reports that there is none |
| `BeefyWorker.VoterOracle.AcceptedInterval` | substrate-ipfs/client/beefy/src/worker.rs:187-202 | computes, from the session objects, the interval of every voter of the model with these sessions and this best GRANDPA block, the one by which the model triages |
| `BeefyWorker.Worker.constructor` | substrate-ipfs/client/beefy/src/worker.rs:342-370 | starts with empty buffers |
| `BeefyWorker.Worker.FinalizeProof` | substrate-ipfs/client/beefy/src/worker.rs:599-641 | does what the voter model's finalization does, and nothing else |
| `BeefyWorker.Worker.ProcessVote` | substrate-ipfs/client/beefy/src/worker.rs:539-592 | does what the voter model's vote handling does |
| `BeefyWorker.Worker.TriageRound` | substrate-ipfs/client/beefy/src/worker.rs:205-218 | process, enqueue or discard by the accepted interval |
| `BeefyWorker.Worker.TriageIncomingVote` | substrate-ipfs/client/beefy/src/worker.rs:481-508 | one step of the model for an arriving vote |
| `BeefyWorker.Worker.TriageIncomingJustification` | substrate-ipfs/client/beefy/src/worker.rs:512-537 | one step of the model for an arriving justification |
| `BeefyWorker.Worker.HandleFinalityNotification` | substrate-ipfs/client/beefy/src/worker.rs:452-478 | the loop over the finalized headers starts the model's sessions |
| `BeefyWorker.Worker.InitSessionAt` | substrate-ipfs/client/beefy/src/worker.rs:416-450 | adds a fresh session object |
| `BeefyWorker.Worker.TryPendingJustificationsAndVotes` | substrate-ipfs/client/beefy/src/worker.rs:644-695 | the two passes over the buffers are the model's |
| `BeefyWorker.Worker.CastVote` | substrate-ipfs/client/beefy/src/worker.rs:698-806 | votes, records and sends as the model does, whatever payload, key or signature is missing |
| `VoterInit.CheckSessions` | substrate-ipfs/client/beefy/src/worker.rs:97-124 | accepts exactly the non-empty queues with validators, starts above zero, ascending starts and set ids, and no finished session but the first |
| `VoterInit.CheckedNew` | substrate-ipfs/client/beefy/src/worker.rs:93-135 | a checked queue becomes a voter with a minimum delta of at least one |
| `VoterInit.InitializeVoterState` | substrate-ipfs/client/beefy/src/lib.rs:335-421 | the walk down the chain terminates and returns the voter, or the error, that the latest justified block and the announcing blocks above it determine |
| `VoterInit.ChangesAreExact` | substrate-ipfs/client/beefy/src/lib.rs:395-398 | every session found starts at an announcing block with the set announced there, every announcing block has one, in ascending order |
| `VoterInit.InitialQueueShape` | substrate-ipfs/client/beefy/src/lib.rs:358-393 | the first queue has a session for each announcing block above the base, and for the base exactly if it has no proof or nothing was announced since, and no others; only a justified base counts as finished |
| `VoterInit.InitSucceedsExactly` | substrate-ipfs/client/beefy/src/lib.rs:335-421 | startup yields a voter if and only if the chain has more than its genesis block, states down to the base, the genesis set at an unproven block 1, and non-empty sets with increasing ids at the blocks that start a session |
| `VoterInit.InitialVoterIsGood` | substrate-ipfs/client/beefy/src/lib.rs:335-421 | for every such chain startup succeeds and its voter stands at the best block with the given minimum, at least one, nothing voted on or buffered, and satisfies everything that runs keep |
| `HeapLayout.OrderFromSizeIsSmallest` | substrate-ipfs/client/allocator/src/freeing_bump.rs:141-161 | a request up to 2^25 gets the smallest order whose chunks hold it, a larger one fails |
| `HeapLayout.HeaderRoundTrip` | substrate-ipfs/client/allocator/src/freeing_bump.rs:240-266 | a header written to memory is read back, for every order and every link |
| `HeapLayout.HeaderWriteBytes` | substrate-ipfs/client/allocator/src/freeing_bump.rs:258-266 | writing a header changes its eight bytes, to its encoding, and no others |
| `HeapLayout.HeaderFormat` | substrate-ipfs/client/allocator/src/freeing_bump.rs:207-266 | the bytes written are the documented layout: order, next header or all ones in the first four, 1 or 0 for occupied or free in the last four, little-endian |
| `HeapLayout.HeaderWriteFrame` | substrate-ipfs/client/allocator/src/freeing_bump.rs:258-266 | every header that does not overlap the one written reads as before |
| `HeapLayout.ReadLeU64` | substrate-ipfs/client/allocator/src/freeing_bump.rs:553-560 | reads eight bytes little-endian, or fails outside the memory |
| `HeapLayout.WriteLeU64` | substrate-ipfs/client/allocator/src/freeing_bump.rs:561-567 | writes them in place and nothing else, or fails outside the memory |
| `HeapModel.AllocateKeepsInv` | substrate-ipfs/client/allocator/src/freeing_bump.rs:398-446 | [base, bumper) stays tiled by aligned chunks, each live or on one free list of its order, and the counters stay exact |
| `HeapModel.DeallocateKeepsInv` | substrate-ipfs/client/allocator/src/freeing_bump.rs:460-495 | the same for freeing |
| `HeapModel.AllocateReturnsFreshChunk` | substrate-ipfs/client/allocator/src/freeing_bump.rs:398-446 | the pointer handed out is eight bytes into a chunk that was not live, overlaps no other chunk, lies inside the memory and has the smallest order that fits |
| `HeapModel.AllocateFailsExactlyWhenFull` | substrate-ipfs/client/allocator/src/freeing_bump.rs:398-446 | a request fails if and only if it is too large, or no chunk of its order is free and a new one does not fit; under the size hypothesis never by overflow |
| `HeapModel.DeallocateSucceedsExactlyOnLive` | substrate-ipfs/client/allocator/src/freeing_bump.rs:465-495 | freeing succeeds if and only if the chunk is live, so a second free is detected and the underflow check never fires |
| `HeapModel.FreedChunkIsReused` | substrate-ipfs/client/allocator/src/freeing_bump.rs:412-432 | a freed chunk is the next one handed out for its order, and that restores the heap exactly |
| `HeapModel.LiveBytesBounded` | substrate-ipfs/client/allocator/src/freeing_bump.rs:434-446 | bytes in use never exceed the address space used, which is bumper minus base |
| `HeapModel.RunKeepsInv` | substrate-ipfs/client/allocator/src/freeing_bump.rs:349-495 | every run of allowed calls keeps the heap invariant until one fails |
| `HeapModel.NewSatisfiesInv` | substrate-ipfs/client/allocator/src/freeing_bump.rs:370-381 | a new allocator satisfies it, its base rounded up to the alignment |
| `HeapModel.PoisonedExactlyAfterFailure` | substrate-ipfs/client/allocator/src/freeing_bump.rs:584-598 | an allocator is poisoned if and only if a call has failed, and then every call fails and changes nothing |
| `HeapModel.CountersOverRun` | substrate-ipfs/client/allocator/src/freeing_bump.rs:434-441 | the peak is the high-water mark and the sum the total handed out, over every run |
| `FreeingBump.AllocateSimulates` | substrate-ipfs/client/allocator/src/freeing_bump.rs:398-446 | the allocator on raw bytes, with its linked free lists in the headers, does what the model does, result and representation |
| `FreeingBump.DeallocateSimulates` | substrate-ipfs/client/allocator/src/freeing_bump.rs:460-495 | the same for freeing |
| `FreeingBump.AllocateWritesOnlyHeader` | substrate-ipfs/client/allocator/src/freeing_bump.rs:398-446 | allocating writes no byte outside the header of the returned chunk |
| `FreeingBump.DeallocateWritesOnlyHeader` | substrate-ipfs/client/allocator/src/freeing_bump.rs:460-495 | freeing writes no byte outside the header of the freed chunk |
| `FreeingBump.AllocatePreservesPayloads` | substrate-ipfs/client/allocator/src/freeing_bump.rs:398-446 | allocating, whether it succeeds or fails, changes no payload byte of any chunk |
| `FreeingBump.DeallocatePreservesPayloads` | substrate-ipfs/client/allocator/src/freeing_bump.rs:460-495 | freeing, whether it succeeds or fails, changes no payload byte of any chunk |
| `FreeingBump.ClientWritesKeepHeaders` | substrate-ipfs/client/allocator/src/freeing_bump.rs:227-266 | client writes outside the headers, and growing the memory, keep every header |
| `FreeingBump.RunSimulates` | substrate-ipfs/client/allocator/src/freeing_bump.rs:349-495 | every run on raw bytes with a well-behaved client is a run of the model, step for step |
| `FreeingBump.RunPreservesPayload` | substrate-ipfs/client/allocator/src/freeing_bump.rs:349-495 | in every such run the payload of a chunk changes only by the client's own writes to it |
| `FreeingBump.FreeingBumpHeapAllocator.constructor` | substrate-ipfs/client/allocator/src/freeing_bump.rs:370-381 | a new allocator is the model's |
| `FreeingBump.FreeingBumpHeapAllocator.TakeChunk` | substrate-ipfs/client/allocator/src/freeing_bump.rs:412-432 | takes the head of the order's free list, or a new chunk from the bumper, in place |
| `FreeingBump.FreeingBumpHeapAllocator.Allocate` | substrate-ipfs/client/allocator/src/freeing_bump.rs:398-446 | computes the byte-level model on the array, poisoned unless it succeeds |
| `FreeingBump.FreeingBumpHeapAllocator.Deallocate` | substrate-ipfs/client/allocator/src/freeing_bump.rs:460-495 | computes the byte-level model on the array, poisoned unless it succeeds |
| `LruMap.AddEvictsMinimally` | substrate-ipfs/client/db/src/storage_cache.rs:107-137 | the map never exceeds its limit after an insertion and evicts, oldest first, no more than it must |
| `LruMap.AddFacts` | substrate-ipfs/client/db/src/storage_cache.rs:107-137 | after an insertion keys are distinct, an entry for the key has the new value, every other entry is an old one |
| `LruMap.NewKeyStaysIfItFits` | substrate-ipfs/client/db/src/storage_cache.rs:107-137 | a new key is in the map after its insertion if and only if its entry fits the limit on its own |
| `LruMap.RefreshMovesToBack` | substrate-ipfs/client/db/src/storage_cache.rs:139-145 | a read moves the entry to the back, the others keep their order; reading an absent key changes nothing |
| `LruMap.ReadIsEvictedLast` | substrate-ipfs/client/db/src/storage_cache.rs:107-145 | while an insertion keeps any other old entry it keeps the one read last |
| `LruMap.LRUMap.Remove` | substrate-ipfs/client/db/src/storage_cache.rs:98-106 | removes the key and its size |
| `LruMap.LRUMap.Add` | substrate-ipfs/client/db/src/storage_cache.rs:107-137 | the loop of evictions yields the model's map and size |
| `LruMap.LRUMap.Get` | substrate-ipfs/client/db/src/storage_cache.rs:139-145 | returns the value and makes it the youngest |
| `LruMap.LRUMap.Clear` | substrate-ipfs/client/db/src/storage_cache.rs:150-153 | empties the map and its size |
| `BlockStates.UnchangedAlongRoute` | substrate-ipfs/client/db/src/storage_cache.rs:168-222 | a key no block of a tree route changes has the same value at both ends |
| `CacheModel.ScanIsTreeWalk` | substrate-ipfs/client/db/src/storage_cache.rs:467-516 | the single scan over the listed modifications decides exactly the walk from a block to the canonical chain |
| `CacheModel.AllowedIsSound` | substrate-ipfs/client/db/src/storage_cache.rs:467-516 | whenever a lookup may use the shared cache, its block and the best block agree on the key |
| `CacheCoherence.SyncMoves` | substrate-ipfs/client/db/src/storage_cache.rs:168-222 | after syncing along a route the list of modifications describes the new best chain |
| `CacheCoherence.TrimKeepsStructure` | substrate-ipfs/client/db/src/storage_cache.rs:395-397 | dropping the oldest of twelve entries keeps the list complete from the top |
| `CacheCoherence.RecordBestStructured` | substrate-ipfs/client/db/src/storage_cache.rs:392-438 | recording a best block keeps the list sorted and canonical flags right |
| `CacheCoherence.RecordForkStructured` | substrate-ipfs/client/db/src/storage_cache.rs:392-438 | so does recording a fork block |
| `CacheCoherence.RecordBestCoherent` | substrate-ipfs/client/db/src/storage_cache.rs:380-415 | cached values are those of the new best block |
| `CacheRuns.CommitBestKeepsInv` | substrate-ipfs/client/db/src/storage_cache.rs:326-439 | committing a best block keeps the cache right |
| `CacheRuns.CommitForkKeepsInv` | substrate-ipfs/client/db/src/storage_cache.rs:326-439 | committing a fork block keeps the cache right |
| `CacheRuns.DropKeepsInv` | substrate-ipfs/client/db/src/storage_cache.rs:925-941 | sharing what a dropped state read keeps the cache right |
| `CacheRuns.ReorgKeepsInv` | substrate-ipfs/client/db/src/storage_cache.rs:168-222 | syncing for a new best block keeps the cache right |
| `CacheRuns.ReadStorageIsTrue` | substrate-ipfs/client/db/src/storage_cache.rs:524-551 | a read returns what the block holds and keeps both caches right |
| `CacheRuns.ReadStorageHashIsTrue` | substrate-ipfs/client/db/src/storage_cache.rs:553-575 | the same for hashes |
| `CacheRuns.ReadChildStorageIsTrue` | substrate-ipfs/client/db/src/storage_cache.rs:577-608 | the same for child tries |
| `CacheRuns.CacheIsCoherent` | substrate-ipfs/client/db/src/storage_cache.rs:326-608 | after any run of opening, reading, committing, reorganising and dropping, any read through any open state returns exactly what its block holds; at most twelve entries, in descending order |
| `CacheEffects.MarkExactly` | substrate-ipfs/client/db/src/storage_cache.rs:168-205 | marking succeeds if and only if all blocks are listed; then exactly the entries for keys they changed go and exactly their flags are set |
| `CacheEffects.SyncExactly` | substrate-ipfs/client/db/src/storage_cache.rs:168-222 | a route with a block that is not listed wipes the cache; any other drops exactly the entries for keys changed along it and makes enacted blocks canonical, retracted ones not |
| `CacheEffects.AddAllExactly` | substrate-ipfs/client/db/src/storage_cache.rs:370-390 | with room, added values replace old ones, the last one for a key counts, and every other entry stays |
| `CacheEffects.CommitExactly` | substrate-ipfs/client/db/src/storage_cache.rs:326-439 | after a best commit, with room, a key is found as the block changed it, else as read through its state, else as the move along the route left it; hashes of changed keys are gone; the block is listed in its place, of twelve listed ones the last having gone |
| `CacheEffects.ForkExactly` | substrate-ipfs/client/db/src/storage_cache.rs:392-438 | a new fork block is listed as not canonical and changes nothing else |
| `CacheEffects.DropExactly` | substrate-ipfs/client/db/src/storage_cache.rs:925-941 | dropping a state of the best block shares every value read through it, with room; any other state leaves no trace |
| `CacheEffects.SecondReadIsServed` | substrate-ipfs/client/db/src/storage_cache.rs:524-551 | a value read once through a state is not asked of the backing state again |
| `CacheEffects.SecondHashReadIsServed` | substrate-ipfs/client/db/src/storage_cache.rs:553-575 | the same for hashes |
| `CacheEffects.SecondChildReadIsServed` | substrate-ipfs/client/db/src/storage_cache.rs:577-608 | the same for child tries |
| `CacheEffects.CommitIsServed` | substrate-ipfs/client/db/src/storage_cache.rs:326-551 | whatever the backing state says, a read on top of a block just committed as best, with room, yields what the block changed or its state had read, unless a listed block of its number or above changes the key too |
| `StorageCache.SharedCache.MarkAll` | substrate-ipfs/client/db/src/storage_cache.rs:168-222 | the loops over enacted or retracted blocks flag and purge as the model does |
| `StorageCache.SharedCache.Sync` | substrate-ipfs/client/db/src/storage_cache.rs:168-222 | retracted and enacted blocks are applied, and the caches wiped where a block is not listed, as in the model |
| `StorageCache.CachingState.Storage` | substrate-ipfs/client/db/src/storage_cache.rs:524-551 | reads as the model does |
| `StorageCache.CachingState.StorageHash` | substrate-ipfs/client/db/src/storage_cache.rs:553-575 | reads hashes as the model does |
| `StorageCache.CachingState.ChildStorage` | substrate-ipfs/client/db/src/storage_cache.rs:577-608 | reads child values as the model does |
| `StorageCache.CachingState.ShareLocal` | substrate-ipfs/client/db/src/storage_cache.rs:370-390 | moves local reads into the shared cache as the model does |
| `StorageCache.CachingState.RecordBlock` | substrate-ipfs/client/db/src/storage_cache.rs:392-438 | records a block's changes as the model does |
| `StorageCache.CachingState.SyncCache` | substrate-ipfs/client/db/src/storage_cache.rs:326-439 | the whole commit is the model's |
| `StorageCache.CachingState.DropState` | substrate-ipfs/client/db/src/storage_cache.rs:925-941 | the drop is the model's |
| `Leaves.ImportCounts` | substrate-ipfs/client/api/src/leaves.rs:106-121 | after an import exactly the parent has left and the block has joined the leaves |
| `Leaves.RemoveCounts` | substrate-ipfs/client/api/src/leaves.rs:265-290 | removing a leaf removes every copy of it, nothing else, and no empty level stays |
| `Leaves.UndoImportRestores` | substrate-ipfs/client/api/src/leaves.rs:310-316 | undoing an import restores the leaves up to order within a level if and only if the block was no leaf before |
| `Leaves.UndoRemoveRestores` | substrate-ipfs/client/api/src/leaves.rs:320-326 | undoing a removal restores them if and only if a re-inserted parent was no leaf before |
| `Leaves.FinalizationSplits` | substrate-ipfs/client/api/src/leaves.rs:161-188 | finalizing a height splits the leaves into displaced and kept, and undoing it restores them exactly |
| `Leaves.LeafSet.InsertAt` | substrate-ipfs/client/api/src/leaves.rs:260-262 | appends to the level |
| `Leaves.LeafSet.RemoveAt` | substrate-ipfs/client/api/src/leaves.rs:265-290 | the retaining loop removes the leaf and tells whether it was there |
| `Leaves.LeafSet.ImportBlock` | substrate-ipfs/client/api/src/leaves.rs:106-121 | imports as the model does, with the outcome to undo it |
| `Leaves.LeafSet.RemoveBlock` | substrate-ipfs/client/api/src/leaves.rs:129-152 | removes as the model does, with the outcome to undo it |
| `Leaves.LeafSet.Finalize` | substrate-ipfs/client/api/src/leaves.rs:161-170 | removes and returns exactly the displaced leaves |
| `Leaves.LeafSet.DisplacedBy` | substrate-ipfs/client/api/src/leaves.rs:177-188 | returns precisely what finalizing would remove |
| `Leaves.LeafSet.UndoImportOf` | substrate-ipfs/client/api/src/leaves.rs:310-316 | undoes as the model does |
| `Leaves.LeafSet.UndoRemoveOf` | substrate-ipfs/client/api/src/leaves.rs:320-326 | undoes as the model does |
| `Leaves.LeafSet.UndoFinalizationOf` | substrate-ipfs/client/api/src/leaves.rs:330-332 | puts the displaced levels back |
| `BlockTree.ReorgIsExact` | substrate-ipfs/client/db/src/lib.rs:1228-1252 | removing the retracted and inserting the enacted numbers turns the index of the old best chain into exactly that of the new one |
| `BlockTree.RetractedOrKept` | substrate-ipfs/client/db/src/lib.rs:1231-1242 | a block of the old best chain is retracted exactly if it is not on the new one with everything below it |
| `BlockDbRuns.HeadChangeIsExact` | substrate-ipfs/client/db/src/lib.rs:1202-1266 | after a successful head change over a known block the index holds exactly the ancestors of the new best, and everything final is still below it |
| `BlockDbRuns.HeadChangeSucceedsExactly` | substrate-ipfs/client/db/src/lib.rs:1202-1242 | a head change over a known block succeeds if and only if it goes back no further than the delay and the finalized block is on that block's chain |
| `BlockDbEffects.SetHeadExactly` | substrate-ipfs/client/db/src/lib.rs:1634-1649 | setting the head to a known block makes it best with exactly its chain as index and changes nothing else, or fails with the right error if it is unknown, too far back or off the finalized chain |
| `BlockDbEffects.FinalizeExactly` | substrate-ipfs/client/db/src/lib.rs:1287-1311 | finalizing succeeds if and only if the block is known and a child of the finalized one, or that is at number zero; then it is the finalized block and exactly the leaves below it are gone |
| `BlockDbEffects.ImportSucceedsExactly` | substrate-ipfs/client/db/src/lib.rs:1387-1588 | an import succeeds if and only if, where it moves the head, the delay allows it and the finalized block is on the parent's chain, and, where it finalizes, finality may move there |
| `BlockDbEffects.ImportMovesHead` | substrate-ipfs/client/db/src/lib.rs:1536-1588 | a block imported as best or final becomes best with its chain as index, one imported as final or first becomes finalized, any other moves neither |
| `BlockDbEffects.ImportAddsLeaf` | substrate-ipfs/client/db/src/lib.rs:1551-1586 | an imported block is its parent's last child and a leaf in place of its parent unless it is not above the finalized height; one imported as final takes the leaves below it off the list |
| `BlockDbEffects.RemoveExactly` | substrate-ipfs/client/db/src/lib.rs:2233-2297 | removing a leaf other than the best block takes it off headers, children and leaves, puts its parent among the leaves if it was the only child, and changes nothing else; any other block fails with the right error |
| `BlockDbRuns.ImportKeepsInv` | substrate-ipfs/client/db/src/lib.rs:1387-1588 | importing a fresh block, normal, best or final, keeps tree, children, leaves, index and finality in order |
| `BlockDbRuns.SetHeadKeepsInv` | substrate-ipfs/client/db/src/lib.rs:1634-1649 | so does setting the head |
| `BlockDbRuns.FinalizeKeepsInv` | substrate-ipfs/client/db/src/lib.rs:1287-1311 | so does finalizing a block of the best chain |
| `BlockDbRuns.RemoveKeepsInv` | substrate-ipfs/client/db/src/lib.rs:2233-2297 | so does removing a leaf |
| `BlockDbRuns.SequentialMovesUp` | substrate-ipfs/client/db/src/lib.rs:1268-1285 | finalization starts at the genesis block or moves up by one |
| `BlockDbRuns.StepKeepsInv` | substrate-ipfs/client/db/src/lib.rs:1362-1677 | every operation, successful or failed, keeps the invariant and loses no finality |
| `BlockDbRuns.LeavesAreTheChildless` | substrate-ipfs/client/api/src/leaves.rs:106-152 | in every run a block above the finalized height, or any block before finality moved, is listed exactly once if it is nobody's parent and not at all otherwise; no listed block is a parent |
| `BlockDbRuns.FinalityNeverLost` | substrate-ipfs/client/db/src/lib.rs:1202-1266 | in every run the finalized block and all below it stay on the best chain |
| `BlockDbRuns.RemovalKeepsInvExactly` | substrate-ipfs/client/db/src/lib.rs:2262-2287 | removing a leaf keeps everything in order if and only if it does not turn a block below the finalized height into a leaf |
| `BlockDbRuns.ParentStaysListed` | substrate-ipfs/client/db/src/lib.rs:1560-1570 | after a removal that does, a new child of that block leaves it on the list although it has a child |
| `BlockDbReach.RemovalIsReached` | substrate-ipfs/client/db/src/lib.rs:2233-2297 | six operations on an empty database reach a state with such a removal |
| `BlockBackend.Backend.constructor` | substrate-ipfs/client/db/src/lib.rs:487-497 | an empty database satisfies the invariant |
| `BlockBackend.Backend.SetHeadWithTransaction` | substrate-ipfs/client/db/src/lib.rs:1202-1266 | the loops over retracted and enacted blocks give the model's index or its error |
| `BlockBackend.Backend.NoteFinalized` | substrate-ipfs/client/db/src/lib.rs:1681-1717 | takes exactly the displaced leaves off the list and prunes their branches by the index as it is before the commit |
| `BlockBackend.Backend.CommitImport` | substrate-ipfs/client/db/src/lib.rs:1387-1588 | commits in full or fails without a trace, keeps invariant and finality, and prunes what the model does |
| `BlockBackend.Backend.InsertBlock` | substrate-ipfs/client/db/src/lib.rs:1555-1588 | writes header, leaf, child and meta entries as the model does |
| `BlockBackend.Backend.UpdateLeaves` | substrate-ipfs/client/db/src/lib.rs:1560-1570 | finalizes and imports in the leaf set, new blocks only above the finalized height |
| `BlockBackend.Backend.CommitHead` | substrate-ipfs/client/db/src/lib.rs:1634-1656 | commits in full or fails without a trace |
| `BlockBackend.Backend.CommitFinalization` | substrate-ipfs/client/db/src/lib.rs:1287-1311 | commits in full or fails without a trace, keeps invariant and finality, and prunes what the model does |
| `BlockBackend.Backend.RemoveLeafBlock` | substrate-ipfs/client/db/src/lib.rs:2233-2297 | commits in full or fails without a trace |
| `Pruning.PruneBranch` | substrate-ipfs/client/db/src/lib.rs:1749-1765 | the loop terminates and prunes the model's walk |
| `Pruning.PruneDisplacedBranches` | substrate-ipfs/client/db/src/lib.rs:1741-1767 | prunes the walks of all displaced leaves in turn |
| `Pruning.DisplacedFacts` | substrate-ipfs/client/api/src/leaves.rs:161-170 | a displaced leaf is a known childless block below the finalized height, canonical if and only if it is the best block |
| `Pruning.WalkIsExact` | substrate-ipfs/client/db/src/lib.rs:1749-1765 | the walk from any displaced leaf prunes that leaf and precisely its non-canonical ancestors, each once, and stops at the first canonical one |
| `Pruning.PrunedOncePerLeaf` | substrate-ipfs/client/db/src/lib.rs:1741-1767 | a non-canonical block is pruned once for each displaced leaf above it, a canonical one only as a displaced leaf itself |
| `Pruning.PrunedExactly` | substrate-ipfs/client/db/src/lib.rs:1711-1767 | finalizing any number prunes exactly the off-chain blocks under a displaced leaf, and the best block if it is listed below that number |
| `Pruning.FinalizingPrunesExactly` | substrate-ipfs/client/db/src/lib.rs:1287-1300 | finalizing a block of the best chain prunes exactly the off-chain blocks under a displaced leaf and no block of the best chain |
| `Pruning.FinalImportPrunesExactly` | substrate-ipfs/client/db/src/lib.rs:1551-1570 | a block imported as final has blocks of its own chain pruned if and only if its parent is the listed best block, or it builds off the best chain on a block shared with a displaced leaf; the second only while nothing but the genesis block is final |
| `BlockDbReach.SealingPrunesParent` | substrate-ipfs/client/db/src/lib.rs:1551-1570 | a block imported as final on top of the listed best block has that block, its parent, pruned |
| `BlockDbReach.SealingIsReached` | substrate-ipfs/client/db/src/lib.rs:1551-1570 | importing the first two blocks as final does it |
| `IndexedBody.CollectOps` | substrate-ipfs/client/db/src/lib.rs:1850-1861 | the last insertion and the last renewal of an extrinsic win |
| `IndexedBody.LastInsertCounts` | substrate-ipfs/client/db/src/lib.rs:1852-1856 | the insertion collected for an extrinsic is the last one that names it |
| `IndexedBody.LastRenewCounts` | substrate-ipfs/client/db/src/lib.rs:1857-1859 | so is the renewal |
| `IndexedBody.StoredExactly` | substrate-ipfs/client/db/src/lib.rs:1862-1891 | a renewed extrinsic is kept in full beside a reference; one with an insertion of a fitting size is split into a header and a stored value of exactly that size, together its encoding; any other is kept as it is |
| `IndexedBody.StoredFrom` | substrate-ipfs/client/db/src/lib.rs:1870-1878 | every value stored is the end, of the inserted size, of the encoding of an extrinsic inserted under that hash and not renewed |
| `IndexedBody.IndexExtrinsic` | substrate-ipfs/client/db/src/lib.rs:1862-1891 | a renewal wins over an insertion, an oversized insertion stores the extrinsic in full |
| `IndexedBody.IndexBody` | substrate-ipfs/client/db/src/lib.rs:1844-1901 | the loops give the model's index and column changes |
| `IndexedBody.WriteBody` | substrate-ipfs/client/db/src/lib.rs:1411-1423 | stores a body plain or, with index operations, as an index and column changes, as the model does |
| `IndexedBody.ReadBody` | substrate-ipfs/client/db/src/lib.rs:579-641 | reads back a plain or an indexed body as the model does, with the first error, or tells that there is none |
| `IndexedBody.BodyRoundTrips` | substrate-ipfs/client/db/src/lib.rs:579-641 | a committed body, plain or indexed, reads back as it was if and only if every renewed transaction was in the column before or is inserted by the same body, where a hash determines the bytes at the end of the extrinsics inserted under it |
| `IndexedBody.DecodeFailsExactly` | substrate-ipfs/client/db/src/lib.rs:600-632 | decoding an index fails if and only if an entry does not decode, with the error of the first such entry |
| `IndexedBody.DamageIsReported` | substrate-ipfs/client/db/src/lib.rs:579-641 | reading fails if and only if the plain body or the index does not parse or an entry does not decode, and finds no body if and only if neither is stored; pruning fails if and only if the index does not parse |
| `IndexedBody.OneChangePerEntry` | substrate-ipfs/client/db/src/lib.rs:1862-1891 | there is one store or reference per indexed entry |
| `IndexedBody.ReferencesTakenExactly` | substrate-ipfs/client/db/src/lib.rs:1862-1891 | the column counts one more reference per indexed entry if and only if no renewal comes before the transaction is there |
| `IndexedBody.PruneBody` | substrate-ipfs/client/db/src/lib.rs:1789-1811 | releases one reference per indexed entry, nothing for a plain body, and fails on an undecodable index |
| `IndexedBody.PruneReleasesExactly` | substrate-ipfs/client/db/src/lib.rs:1789-1805 | pruning lowers each count by the number of indexed entries and keeps the values still referred to |
| `IndexedBody.PruneUndoesCommit` | substrate-ipfs/client/db/src/lib.rs:1789-1901 | committing a body and pruning it leaves the transaction column exactly as it was |
| `IndexedBody.JoinInput.Read` | substrate-ipfs/client/db/src/utils.rs:568-578 | a read from two slices is a read from their concatenation; one past the end fails and uses up the first slice only |
| `IndexedBody.JoinInput.ReadAll` | substrate-ipfs/client/db/src/utils.rs:563-579 | any series of reads that fits gives back the concatenation piece by piece |

## Left out

- Gossip, on-demand justification requests, authority discovery, the key store's own checks, metrics and logging: they are input or output of the modelled steps.
- Writing the voter's state to disk and decoding it: writing is taken to succeed, and the saved state is a state of the voter.
- Decoding of votes, proofs and headers: they arrive as values, and the digest search for a session change is part of a header's value.
- Release builds of the allocator, where arithmetic wraps instead of failing.
- A client that shrinks the memory, in the byte-level runs: a call that sees a smaller memory fails and poisons in both models, but runs do not contain it.
- Freeing a pointer into the middle of a chunk: the allocator then reads a word the client may have written.
- Commits to the cache without a parent hash, and the usage statistics of the cache.
- Reads of the state that bypass the cache (existence, iteration, roots).
- The in-memory backend, `revert`, detached imports, block gaps, and several head changes or finalizations in one operation.
- The state database: whether a block's state is still there, canonicalization and its delay counter.
- Encoding of lookup keys, and the error for block numbers beyond 32 bits in them.
- Re-import of a block that is already known.
- BlockDbRuns.ImportKeepsInv: does not model the branch that marks a block at or below the finalized number as finalized when its state is committed with it, at `substrate-ipfs/client/db/src/lib.rs:1507-1521`, because it depends on the state database; blocks there are imported without state.
- Pruning of the finalized chain itself by age: only displaced branches are modelled.
- BlockBackend.Backend.RemoveLeafBlock: does not model the check that the block's state is still there, because the state database is left out.
- IndexedBody.PruneReleasesExactly: states what one pruning of a block releases; how often a shared ancestor is pruned in one transaction is what Pruning.PrunedOncePerLeaf states.
- Bodies that arrive already split for the transaction column, beside the plain or indexed one.
- Bodies with 2^32 extrinsics or more, whose positions would wrap.
- The block builder, the proposer, the command line, the front end and chain specifications.
