# Mitosis: a verified model

Mitosis is a sharded blockchain. Each shard keeps its accounts in a binary Merkle Patricia trie,
agrees on blocks by a three-phase vote, executes them on a journaled account cache, and sends
transactions for other shards away in chunks that carry a Merkle proof. This project models these
four layers in Dafny and proves what holds of them over all inputs, all runs and all reachable
states. `dafny verify dfyconfig.toml` checks the whole project.

## What is modelled

**The trie.** `Encoding` has the bit keys, the byte packing and the compact key form. `Trees` is the
trie as a value: the canonical tree of a finite map, its updates, and the root hash as a commitment.
`Nodes`, `LazyTrie`, `Hasher` and `Committer` are the nodes of the program, partly loaded, with
cached hashes and dirty flags; `TrieObject` is the trie object, `TrieRuns` whole runs of it.
`StackTrie` is the streaming builder, changed in place, on keys in the order of `KeyOrder`. `Proofs`
has proving and verifying, `PreOrder`, `NodeIterator` and `KeyValueIterator` the iterators. `NodeCache`,
`Teardown` and `Database` are the write-back node database with its reference counts and flush list,
`Garbage` what a removal leaves behind, `Collapsed` the form of nodes in it, `CommitOrder` the order in
which the committer fills it, and `TrieDatabase` a trie on top of it.

**Consensus.** `Bft` is one node's reaction to one message, `Guarantees` what a correct node keeps,
`Leading` what votes do to the leader, `Progress` exactly when nodes move on, `Agreement` the safety of all
runs of a committee, `Disagreement` a run in which votes for others break it. `BftObject` is the protocol object with its bitmaps in bytes,
`Bitmap` the bitmaps of committee members.

**State and blocks.** `Uints` is the integer and account encoding, `Journal` and `StateDB` the account
cache and its journal, `Execution` what blocks do to accounts and `Settlement` what that comes to for
each account, `Blocks` and `Blockchain` building,
checking, executing and committing blocks, `Conservation` the value in the whole system. `Replication`
puts consensus and execution together.

**Cross-shard delivery.** `Chunks` has the transaction tries and chunk proofs, `Delivery` the matching
of headers and chunks and the pool. `Seal` keeps large predicates closed in proofs that need not look inside.

## Assumptions

- Keccak is injective and acyclic: a digest is a free constructor over what it was computed from
  (`Rlp`). RLP items are trees with their encoded length, so the rule that nodes of fewer than 32
  bytes are embedded is kept.
- A signature verifies exactly if the signer made it. An aggregate is the multiset of the signatures
  added up in it, and verifies exactly if it has one signature of every member of its bitmap. At most
  (n - 1) / 3 members are faulty and sign anything at any time.
- Every consensus message carries the height and hash of its own block. Safety is proved for votes that
  add nobody to a tally but their first member, as the votes of one member that validators build never do;
  what other votes do is a result of its own.
- A nil dereference or an index out of range stops the node (`Halt`, `Crashed`, `Panic`).
- Handlers and methods are atomic.

Some properties fail, and are kept as the code has them, each with an input and with the exact condition:

- A vote whose bitmap names several members is counted for all of them although only the first
  signature is checked (Mitosis/consensus/leader.go:62-72). The tally stays exact exactly if the vote adds
  nobody but its first member (`Guarantees.CountVoteExact`), and without that one faulty member of four
  makes correct nodes commit different blocks (`Disagreement.VotesForOthers`).
- A vote for a phase of the first block that the leader has not reached, or a vote without members, stops
  the leader (Mitosis/consensus/leader.go:121, 126); `Leading.VoteExact` says exactly which votes do.
- A committee of one never commits anything: the leader's own signature already completes its tally, so that no vote
  is counted (Mitosis/consensus/leader.go:58-60, `Progress.AloneIsStuck`). From two members on, some run without faults
  commits any given blocks at every member (`Progress.AnyChainCommits`).
- An account that differs from the trie need not be dirty or pending: creating an account over one that
  was deleted and written makes nothing dirty (Mitosis/state/statedb.go:382-384), and the next commit loses
  it (`StateDB.RecreatedIsMissed`). Every operation says how it changes the set of accounts so missed, and a
  commit writes all the others.
- Value over all shards is not conserved in general. Each block changes it by what it sends unpaid, plus what its
  chunks credit beyond the worth of the parcels they use up, minus what overflows, and by nothing else
  (`Conservation.StepTotal`, `Conservation.RunTotal`). While chunks are what was sent and nothing overflows, it never
  shrinks, and stays the same exactly if all that is sent was paid for and no parcel with value is executed again
  (`Conservation.RunConserves`). A node can make sure of it: the sum stays the same in every run whose blocks send only
  what was paid for and execute only different parcels in flight, with the headers of their blocks and with digests for
  the hashes of their transactions (`Conservation.GuardedRun`). The code checks none of the four, and each is needed:
  - outbound chunks also take transactions that were not funded (Mitosis/core/blockchain.go:187-189,
    `Conservation.UnpaidCreatesValue`);
  - the hash of a transaction is taken from its field and never computed again (Mitosis/types/transaction.go:96-98), so
    a chunk with other amounts passes (`Chunks.AlteredPasses`, `Conservation.AlteredVerdict`,
    `Conservation.AlteredCreatesValue`). The first chunk stored for its place is the one that reaches the pool.
    Digests would settle it (`Chunks.ChunkGenuine`), but the program's own generator changes the destination after
    hashing (Mitosis/core/txpool.go:147-166, `Chunks.RedirectedHash`), and the digest leaves the data of a transaction
    out, as it copies them into a slice of length zero (Mitosis/types/transaction.go:78);
  - a block may hold a chunk twice, or one that was executed before (Mitosis/core/blockchain.go:337-372,
    `Conservation.RepeatedVerdict`, `Conservation.RepeatedCreatesValue`);
  - the check of a header's signature is switched off and its hash is taken from its field
    (Mitosis/core/shardstates.go:32, 167), so a header need not be that of the block it is stored for
    (`Conservation.ForgedCreatesValue`).
- Equal balances are not enough for a validator to accept a leader's block, because an empty account and a
  missing one have different roots (`Blocks.AcceptedExactly`, `Blocks.EmptyAccountRejected`).
- Nothing checks that a reference to a root was taken before it is dropped
  (Mitosis/trie/database.go:557-604); `Database.Database.Dereference` says exactly when that breaks the
  database, `Database.DropTooMany` how.

Comments in the trie code still speak of 16 children and of 0x10 as the terminator; the code uses two
children and a value slot, with 2 as the terminator, and the model follows the code.

## Model

| member | source | states |
|---|---|---|
| Encoding.KeyRoundTrip | Mitosis/trie/encoding.go:37-72 | turning a byte key into bits and back gives the key, for every key |
| Encoding.KeybytesToBinary | Mitosis/trie/encoding.go:37-60 | the loop over bytes yields eight bits each, highest first, closed by the terminator |
| Encoding.BinaryToKeybytes | Mitosis/trie/encoding.go:62-72 | the inverse; a bit count that is not a multiple of eight is an error |
| Encoding.CompactRoundTrip | Mitosis/trie/encoding.go:74-119 | the compact form decodes to the same path, with or without terminator, for every bit string |
| Encoding.CompactInjective | Mitosis/trie/encoding.go:93-119 | different paths have different compact forms |
| Encoding.BinaryToCompact | Mitosis/trie/encoding.go:93-119 | the loops compute the compact form of every path |
| Encoding.BinaryToCompactInPlace | Mitosis/trie/encoding.go:121-156 | overwriting the buffer it reads, it leaves the same bytes as the copying version |
| Encoding.ComputePrefixLen | Mitosis/trie/encoding.go:165-176 | the length of the longest common prefix |
| Encoding.PackIsShiftOr | Mitosis/trie/encoding.go:158-162 | on bits, the shift-and-or of one byte is the sum of weighted bits |
| Encoding.CompactShape | Mitosis/trie/encoding.go:93-119 | the first byte of the compact form has the terminator in its highest bit and the number of odd bits in the next three; the length is that of the source's buffer |
| Trees.PutCanon | Mitosis/trie/trie.go:274-341 | insertion keeps the canonical shape: no short node over a short node, two children in every full node |
| Trees.PutGet | Mitosis/trie/trie.go:274-341 | after insertion the key reads the value and every other key reads as before |
| Trees.CutCanon | Mitosis/trie/trie.go:419-526 | deletion keeps the canonical shape |
| Trees.CutGet | Mitosis/trie/trie.go:419-526 | after deletion the key reads nothing and every other key reads as before |
| Trees.Unique | Mitosis/trie/trie.go:274-526 | two canonical trees that read the same at every key are the same tree |
| Trees.RootHashCommits | Mitosis/trie/hasher.go:68-207 | root hashes are equal exactly if the contents are |
| Nodes.DecodeRepresents | Mitosis/trie/node.go:117-203 | decoding the encoding of a tree gives a node that stands for that tree, hashes in place |
| Nodes.ResolveRepresents | Mitosis/trie/trie.go:542-548 | loading a hash node gives a node for the same tree, or reports it missing, only if it is |
| LazyTrie.LookupRefines | Mitosis/trie/trie.go:113-147 | lookup on a partly loaded trie finds what the tree holds and keeps its meaning, or honestly misses a node |
| LazyTrie.InsertRefines | Mitosis/trie/trie.go:274-341 | insertion on a partly loaded trie is insertion into the tree, and dirty exactly if the tree changed |
| LazyTrie.DeleteRefines | Mitosis/trie/trie.go:419-526 | deletion on a partly loaded trie is deletion from the tree, whether or not the last child was loaded |
| LazyTrie.ScanKids | Mitosis/trie/trie.go:468-478 | the scan finds the only child left, if exactly one is left |
| Hasher.HashRefines | Mitosis/trie/hasher.go:68-149 | hashing gives the commitment of the tree, caches every hash and changes no meaning |
| Committer.CommitNodeCommits | Mitosis/trie/committer.go:88-204 | the right reference, and nothing stored before is lost; if every unloaded node could be read, the whole tree can be read afterwards |
| CommitOrder.CommitClosed | Mitosis/trie/committer.go:88-204 | children are written before parents: the store stays closed under references |
| TrieObject.Trie.TryGet | Mitosis/trie/trie.go:105-147 | reads the map the trie stands for; loading nodes on the way changes nothing |
| TrieObject.Trie.TryUpdate | Mitosis/trie/trie.go:246-263 | updates the map, an empty value deletes; on a missing node nothing changes |
| TrieObject.Trie.TryDelete | Mitosis/trie/trie.go:405-414 | removes the key from the map |
| TrieObject.Trie.Hash | Mitosis/trie/trie.go:552-617 | the root hash of the map, independent of caches |
| TrieObject.Trie.Commit | Mitosis/trie/trie.go:560-604 | returns the root of the map and loses nothing stored; if no node is missing, the whole trie can be read afterwards and the store stays closed |
| TrieObject.Trie.Open | Mitosis/trie/trie.go:69-84 | a known root opens as the tree it commits to, the zero hash as the empty one; an unknown root is reported missing, and a node that does not decode is a panic |
| TrieObject.CommitThenReopen | Mitosis/trie/trie.go:542-617 | committed and reopened, a trie stands for the same map and never misses a node |
| TrieRuns.RunHolds | Mitosis/trie/trie.go:246-526 | after every run of updates and deletions the trie is canonical and reads as the map of the run |
| TrieRuns.RunsAgree | Mitosis/trie/trie.go:246-617 | runs end in the same tree and root exactly if they end in the same map |
| KeyOrder.KeyOrderPreserved | Mitosis/trie/encoding.go:37-60 | bit keys are ordered as their byte keys |
| KeyOrder.BelowRight | Mitosis/trie/stacktrie.go:135-267 | a key above all keys so far only runs down the right side of the tree |
| StackTrie.Node.Insert | Mitosis/trie/stacktrie.go:135-267 | in-place insertion is insertion into the canonical tree, and never meets a hashed node |
| StackTrie.Node.HashSelf | Mitosis/trie/stacktrie.go:281-379 | hashing a subtree early keeps the reference its parent needs |
| StackTrie.Node.Hash | Mitosis/trie/stacktrie.go:382-397 | the root hash of the tree built so far, also if it is too small to have been hashed |
| StackTrie.StreamRoot | Mitosis/trie/stacktrie.go:135-397 | for strictly increasing keys of one length, the streamed root is the root of the ordinary trie |
| StackTrie.LiveBound | Mitosis/trie/stacktrie.go:135-267 | everything off the right side has been hashed and given back: at most two nodes for each symbol of the right side are in memory |
| StackTrie.Stream | Mitosis/trie/stacktrie.go:135-267 | after every insertion the tree is that of the keys so far, and no more than sixteen nodes for each byte of a key, and one, are in memory |
| Proofs.VerifyProof | Mitosis/trie/proof.go:165-189 | the loop ends and computes the recursive verification |
| Proofs.VerifyProofSound | Mitosis/trie/proof.go:165-189 | whatever nodes are supplied, verification against a root answers only with what the trie holds |
| Proofs.VerifyComplete | Mitosis/trie/proof.go:165-189 | with the nodes of the path at hand, verification answers, presence or absence |
| Proofs.Prove | Mitosis/trie/proof.go:38-90 | verification of the proof it writes returns what the trie holds under the key |
| NodeCache.ClosedReadable | Mitosis/trie/database.go:391-423 | if a root can be read from a closed store, its whole trie can |
| NodeCache.ViewClosed | Mitosis/trie/database.go:342-856 | memory and disk together hold whatever a dirty node, a stored node or a live root refers to |
| Collapsed.SimplifyCollapses | Mitosis/trie/database.go:213-237 | stripped of flags, the copy that the committer stores is the collapsed form of its tree |
| Collapsed.SimplifiedIsStored | Mitosis/trie/database.go:161-273 | the stored form encodes as the tree, reads back as the node that decoding from disk gives, and its counted children are the references in the encoding |
| Collapsed.ExpandIsDecode | Mitosis/trie/database.go:239-273 | expanding a collapsed node is decoding its encoding |
| Collapsed.GatherIsRefs | Mitosis/trie/database.go:186-211 | the children counted in memory are the references in the encoding |
| Database.Database.Node | Mitosis/trie/database.go:427-463 | answers from memory, then from disk |
| Database.Database.Insert | Mitosis/trie/database.go:342-369 | adds just this node at the end of the list, uncounted, and counts each of its references once; what can be read grows by it only; its children must be there |
| Database.Database.Reference | Mitosis/trie/database.go:511-529 | one more live root, or an external reference, counted once; what can be read does not change |
| Database.Database.Dereference | Mitosis/trie/database.go:532-604 | gives up one reference to any hash: every count goes down by exactly the references that are gone, and no node whose count gets to zero stays; the database stays as it should exactly if the reference was held, made no difference, or the count exceeds the references left |
| Teardown.DereferenceExact | Mitosis/trie/database.go:557-604 | after the whole cascade the counts are right exactly if the drop did no harm, and once wrong nothing in the cascade repairs them |
| Teardown.DereferenceEven | Mitosis/trie/database.go:557-604 | after the whole cascade each node left has its own references as before and its count down by those to it that are gone |
| Garbage.LeftIfOwed | Mitosis/trie/database.go:557-604 | a node whose references are all counted once is left only if something still refers to it |
| Garbage.NoneLeft | Mitosis/trie/database.go:557-604 | of nodes that only refer to each other and hang on the root dropped, none is left |
| Garbage.Work | Mitosis/trie/database.go:342-604 | insertions, references, and giving up references that were held keep every reference counted once |
| Garbage.DropLast | Mitosis/trie/database.go:557-604 | when the last reference to a trie is given up, and nobody else refers to its nodes, none of them is left, however deep |
| Teardown.CascadesTrans | Mitosis/trie/database.go:581-603 | removals compose: each keeps the list linked and everything above untouched, and right counts right |
| Database.Database.Unlink | Mitosis/trie/database.go:583-593 | takes one node out of the doubly linked list and leaves the rest linked both ways |
| Database.Database.Cap | Mitosis/trie/database.go:641-693 | moves exactly the oldest nodes to disk; those left keep their counts, and what can be read stays the same |
| Database.Database.Put | Mitosis/trie/database.go:824-856 | forgets a node once it is on disk |
| Database.Database.Commit | Mitosis/trie/database.go:714-811 | puts a root on disk with all below it, writing in batches; nodes left keep their counts, and what can be read stays the same |
| Database.FlushListExact | Mitosis/trie/database.go:342-856 | every dirty node but the meta root is in the flush list exactly once |
| Database.LiveTrieReadable | Mitosis/trie/database.go:342-856 | after every operation every trie with a live or dirty root can be read as a whole |
| Database.CommittedTrieReadable | Mitosis/trie/database.go:714-778 | a trie whose root is on disk can be read from the disk alone |
| Database.DropTooMany | Mitosis/trie/database.go:557-604 | dropping a reference that nobody holds to a node counted once leaves the node above with a child that cannot be read |
| TrieDatabase.CommitInto | Mitosis/trie/committer.go:88-204 | committing through the database's insert finds the children of every node there, and leaves the store and the reference of the plain commit |
| TrieDatabase.CommitTrie | Mitosis/trie/trie.go:560-604 | the trie stays readable through the database, which holds it under the returned root and has lost nothing |
| TrieDatabase.Perform | Mitosis/trie/database.go:342-856 | inserts, caps, commits, references and dereferences by others leave a held root held or on disk |
| TrieDatabase.CommitHoldReopen | Mitosis/trie/database.go:342-856 | committed and referenced, a trie reopens as the same map after any such operations |
| PreOrder.VisitsSorted | Mitosis/trie/iterator.go:221-293 | the pre-order visits paths in strictly increasing order, a prefix before its extensions |
| PreOrder.AllVisited | Mitosis/trie/iterator.go:221-293 | every value is visited under its key |
| PreOrder.OnlyVisited | Mitosis/trie/iterator.go:221-293 | every visited value is in the trie under its path |
| NodeIterator.NextChild | Mitosis/trie/iterator.go:307-343 | the next child is the head of what is left of a node |
| NodeIterator.NodeIterator.Peek | Mitosis/trie/iterator.go:259-293 | finds the first node of what is still to come, or honestly misses it with nothing passed over; or ends exactly if nothing is left |
| NodeIterator.NodeIterator.Next | Mitosis/trie/iterator.go:221-238 | visits exactly the recursive pre-order, node by node; a missing node is reported and tried again, a failed seek is taken up again |
| NodeIterator.NodeIterator.Seek | Mitosis/trie/iterator.go:240-256 | stops just before the first path not before the start, having skipped only earlier ones, or at a missing node in a state that can be resumed |
| KeyValueIterator.NextLeaf | Mitosis/trie/iterator.go:47-59 | moves to the next value of the pre-order, or says that there is none or that a node is missing, with no value passed over |
| KeyValueIterator.Iterate | Mitosis/trie/iterator.go:47-357 | from any start, exactly the pairs of the map not before it, by byte key, once and in bit-lexicographic order; at a missing node the first of them and the error |
| Bitmap.NewBitmap | Mitosis/types/bitmap.go:9-16 | an empty set with room for the members |
| Bitmap.HasKey | Mitosis/types/bitmap.go:18-20 | membership |
| Bitmap.SetKey | Mitosis/types/bitmap.go:22-24 | adds one member |
| Bitmap.Merge | Mitosis/types/bitmap.go:26-43 | becomes the union and lists the new members in ascending order; other sizes do not merge |
| Bitmap.GetElement | Mitosis/types/bitmap.go:45-58 | the ascending listing of the set |
| Bitmap.GetSize | Mitosis/types/bitmap.go:60-73 | the size of the set |
| Bitmap.ListsUnique | Mitosis/types/bitmap.go:45-58 | a set has one ascending listing |
| BftObject.BFTProtocol.OnPrepareMsg | Mitosis/consensus/validator.go:12-70 | adopts and signs a block exactly if it is between blocks and the block continues its chain, is well signed and checked; keeps the validator's guarantees: one vote per height, a certified chain, a phase that never goes back |
| BftObject.BFTProtocol.OnPrecommitMsg | Mitosis/consensus/validator.go:72-137 | signs the current block exactly on a quorum's prepare signatures; keeps the guarantees: the precommit signature is the only one for that height |
| BftObject.BFTProtocol.OnCommitMsg | Mitosis/consensus/validator.go:139-222 | commits the current block exactly on a quorum's precommit signatures; keeps the guarantees: it continues the chain and carries them |
| BftObject.BFTProtocol.MergeVote | Mitosis/consensus/leader.go:58-72 | the byte bitmap becomes the union exactly if the vote counts, and stays as it is otherwise; a bitmap of another length adds nobody |
| BftObject.BFTProtocol.OnPrepareVoteMsg | Mitosis/consensus/leader.go:43-104 | with a vote that adds only its first member, keeps the leader's guarantees: bitmap and aggregate hold the same signers, each once; starts precommit exactly if the vote fills the tally |
| BftObject.BFTProtocol.OnPrecommitVoteMsg | Mitosis/consensus/leader.go:106-173 | keeps them; commits, with a certificate, exactly if the vote fills the tally |
| BftObject.BFTProtocol.OnCommitVoteMsg | Mitosis/consensus/leader.go:175-215 | keeps them; proposes the next block, on top of the committed one and with the given contents, exactly if the vote fills the tally |
| BftObject.BFTProtocol.StartLeading | Mitosis/consensus/leader.go:14-41 | proposes a first block with the given contents, from nothing, and keeps the leader's guarantees |
| BftObject.BFTProtocol.SwitchPhase | Mitosis/consensus/protocol.go:48-54 | the phase is the old or the given one, and neither is later than it |
| BftObject.BFTProtocol.HandleBFTMsg | Mitosis/consensus/protocol.go:126-155 | whatever arrives, the object takes one step of a run or none, and keeps the guarantees of its role |
| Guarantees.OnPrepareOk | Mitosis/consensus/validator.go:12-70 | a validator adopts a block only on top of its chain and in a later phase |
| Guarantees.OnPrecommitOk | Mitosis/consensus/validator.go:72-137 | a validator signs one block per height for precommit |
| Guarantees.OnCommitOk | Mitosis/consensus/validator.go:139-222 | what a validator commits has a quorum and continues its chain |
| Guarantees.TalliedExactly | Mitosis/consensus/leader.go:69-76 | the aggregate of a tally has the signature of each of its members once, and nothing else |
| Guarantees.CountVoteExact | Mitosis/consensus/leader.go:43-215 | after a counted vote bitmap and aggregate still match exactly if the vote adds nobody but its first member |
| Guarantees.OneKeyAdds | Mitosis/consensus/leader.go:43-215 | a vote of one member never adds anybody else |
| Leading.VoteExact | Mitosis/consensus/leader.go:43-215 | every vote is counted, stops the leader or changes nothing, and exactly which can be told from the vote and the state |
| Leading.OnVoteOk | Mitosis/consensus/leader.go:43-215 | votes that add only their first member keep the leader's guarantees in every phase |
| Leading.VoteFires | Mitosis/consensus/leader.go:43-215 | early, late or repeated votes move the leader on only from the phase they belong to and with a full tally |
| Progress.PrepareExact | Mitosis/consensus/validator.go:12-70 | a validator adopts and signs a block exactly if nothing is being agreed on, and the block is the next height on its last block, signed by the first member named, and accepted |
| Progress.PrecommitExact | Mitosis/consensus/validator.go:72-137 | it signs its current block for precommit exactly on the prepare signatures of a quorum |
| Progress.CommitExact | Mitosis/consensus/validator.go:139-222 | it commits its current block with the certificate exactly on the precommit signatures of a quorum |
| Progress.PrepareStops | Mitosis/consensus/validator.go:22-38 | a proposal stops a validator exactly if it would be looked at and names nobody |
| Progress.VoteMoves | Mitosis/consensus/leader.go:43-215 | a counted vote is stored, and makes the leader precommit, commit or propose the next block exactly if the tally then reaches the threshold |
| Progress.AloneIsStuck | Mitosis/consensus/leader.go:43-215 | no vote moves the leader of a committee of one |
| Progress.AnyChainCommits | Mitosis/consensus/protocol.go:126-174 | for any sequence of contents some run without faults ends with exactly that chain committed by every member |
| Agreement.QuorumsIntersect | Mitosis/config/config.go:113-114 | two quorums of 2n/3 + 1 share a correct member |
| Agreement.RunOk | Mitosis/consensus/protocol.go:126-174 | every reachable state keeps what every correct node guarantees |
| Agreement.Agreement | Mitosis/consensus/validator.go:12-222 | in every run whose votes add only their first member, correct nodes commit gap-free hash-linked chains that are prefixes of one another |
| Agreement.NeverBack | Mitosis/consensus/protocol.go:48-68 | along every run phases and chains of correct nodes only move forward |
| Agreement.EntersOnce | Mitosis/consensus/protocol.go:48-68 | in every run a correct node enters each phase of each height at most once |
| Agreement.LeaderFires | Mitosis/consensus/leader.go:78-215 | precommit, commit and the next proposal each fire at most once per height, by a vote of the phase that is left and with its tally full |
| Disagreement.VotesForOthers | Mitosis/consensus/leader.go:62-72 | a run in which votes that name several members make a correct leader and a correct validator commit different blocks |
| Uints.UintRoundTrip | Mitosis/types/derive_sha.go:33-65 | the integer keys of the transaction tries decode to the number, so they are distinct |
| Uints.AccountRoundTrip | Mitosis/state/state_object.go:51-53 | an encoded account decodes to its balance, for every 64-bit balance |
| Journal.RevertInv | Mitosis/state/journal.go:58-162 | reverting the last entry brings back the ledger before it, with cache, counts and cleanness |
| Journal.AppendInv | Mitosis/state/journal.go:49-54 | a change whose entry undoes it keeps the whole history revertible |
| Journal.FinaliseInv | Mitosis/state/statedb.go:475-500 | finalising removes exactly the marked accounts and makes every changed one pending |
| Journal.FlushInv | Mitosis/state/statedb.go:505-525 | once pending accounts are written, the trie holds the ledger except the accounts missed |
| Journal.DiffersOrDue | Mitosis/state/statedb.go:374-390 | an account that is neither dirty nor pending is as in the trie, or is empty and missed |
| Journal.ChangedMissed | Mitosis/state/statedb.go:374-390 | a change is missed exactly if it resets an object that was deleted and written; any other change makes its account due |
| StateDB.StateRootCommits | Mitosis/state/statedb.go:543-572 | state roots are equal exactly if the accounts are |
| StateDB.StateDB.Find | Mitosis/state/statedb.go:327-357 | loading an object from the trie changes no account |
| StateDB.StateDB.GetBalance | Mitosis/state/statedb.go:177-183 | the balance of the plain ledger, zero if there is no account |
| StateDB.StateDB.Exist | Mitosis/state/statedb.go:165-167 | whether the ledger has the account, marked ones included |
| StateDB.StateDB.HasSuicided | Mitosis/state/statedb.go:222-228 | whether it exists and is marked |
| StateDB.StateDB.AddBalance | Mitosis/state/statedb.go:235-240 | adds modulo 2^64, creating the account; afterwards its write is due |
| StateDB.StateDB.SubBalance | Mitosis/state/statedb.go:243-248 | subtracts modulo 2^64, creating the account; it is missed exactly if nothing is subtracted from one that was deleted and written |
| StateDB.StateDB.SetBalance | Mitosis/state/statedb.go:250-255 | sets one balance, whose write is then due |
| StateDB.StateDB.Suicide | Mitosis/state/statedb.go:262-276 | empties and marks an existing account |
| StateDB.StateDB.CreateAccount | Mitosis/state/statedb.go:374-407 | a new account keeps the old balance but not the mark; it is missed exactly if it replaces one that was deleted and written |
| StateDB.StateDB.Revert | Mitosis/state/journal.go:58-71 | the ledger and the dirty counts are those at the earlier length |
| StateDB.StateDB.Finalise | Mitosis/state/statedb.go:475-500 | the journal is cleared, and of the accounts exactly the marked ones are gone and, if empty ones are to go, the dirty ones that are empty |
| StateDB.StateDB.IntermediateRoot | Mitosis/state/statedb.go:505-525 | the trie holds exactly the accounts of the ledger but those missed, with every balance, and its root is returned |
| StateDB.StateDB.Commit | Mitosis/state/statedb.go:543-572 | the same, and the state can be read back under the root |
| StateDB.StateDB.Reset | Mitosis/state/statedb.go:105-122 | exactly if the root is known and decodes, the cache is dropped, and the ledger is what the root stands for; otherwise nothing changes |
| StateDB.CommitThenReopen | Mitosis/state/statedb.go:543-572 | reopened at the returned root every balance is the same, marked accounts reading zero |
| StateDB.RecreatedIsMissed | Mitosis/state/statedb.go:374-407 | any account removed, written, created again and committed is gone after reopening |
| StateDB.RunThenRevert | Mitosis/state/journal.go:49-162 | after any operations, reverting to the earlier length restores accounts, marks, dirty counts and what is missed |
| Execution.BlockTotal | Mitosis/core/blockchain.go:150-183 | a block changes its shard's total by inbound credits minus funded outbound debits, minus two to the 64 for each balance that overflows |
| Execution.NothingLost | Mitosis/core/blockchain.go:150-183 | nothing overflows while the total and what comes in stay below two to the 64 |
| Execution.SubtractedTotal | Mitosis/core/blockchain.go:164-183 | a funded debit never wraps around |
| Settlement.TransferExact | Mitosis/core/blockchain.go:164-183 | a transaction of the shard with no more value than its sender has lowers the sender by it and, inside the shard, raises the receiver by it modulo 2^64; others change nothing |
| Settlement.CreditExact | Mitosis/core/blockchain.go:150-157 | a transaction from elsewhere to the shard raises its receiver, no other does |
| Settlement.ExecutedExact | Mitosis/core/blockchain.go:150-183 | after a block an account has what it had, plus what came in and what it was given, minus what was taken, modulo 2^64 |
| Settlement.ExecutedPlain | Mitosis/core/blockchain.go:150-183 | without overflow the same holds of the plain sums |
| Settlement.ExecutedExist | Mitosis/core/blockchain.go:150-183 | exactly the accounts exist that did before or that a credit or a transaction carried out met |
| Settlement.TargetsExact | Mitosis/core/blockchain.go:174-182 | the shards marked are exactly those that a transaction carried out goes to, told from balances |
| Settlement.GrantedExact | Mitosis/core/blockchain.go:96-111 | every listing of an account grants it the amount once |
| Conservation.PaidForExact | Mitosis/core/blockchain.go:174-189 | a block takes out as much as it sends exactly if everything sent was funded |
| Conservation.SentToAll | Mitosis/core/blockchain.go:186-189 | cut into chunks, the value sent is neither lost nor doubled |
| Conservation.AcceptedCan | Mitosis/core/blockchain.go:312-413 | every block that the check accepts is a step of the model, whatever its chunks |
| Conservation.StepTotal | Mitosis/core/blockchain.go:150-189 | the exact change of the value of the whole system by one block, whatever chunks it executes |
| Conservation.RunTotal | Mitosis/core/blockchain.go:150-189 | the exact change over every run |
| Conservation.StepConserves | Mitosis/core/blockchain.go:150-189 | a block that executes what was sent, without overflow, never destroys value, and keeps the sum exactly if what it sends was paid for and no parcel with value comes again |
| Conservation.ClaimedExact | Mitosis/core/blockchain.go:337-372 | unaltered chunks credit no less than the parcels they use up are worth, and as much exactly if none with value comes again |
| Conservation.RunConserves | Mitosis/core/blockchain.go:150-189 | the same over every run of such blocks |
| Conservation.UnalteredExactly | Mitosis/core/shardstates.go:97-113 | a chunk that passes against the header of a block is the block's own exactly if its hash fields are digests |
| Conservation.GuardedRun | Mitosis/core/blockchain.go:312-413 | the sum stays the same in every run of blocks that meet the guard: paid for, true headers, true hashes, each parcel once |
| Conservation.AlteredVerdict | Mitosis/core/blockchain.go:337-372 | the verdict on a chunk does not depend on its amounts or addresses |
| Conservation.RepeatedVerdict | Mitosis/core/blockchain.go:337-372 | an accepted chunk is accepted a second time in the same block |
| Conservation.UnpaidCreatesValue | Mitosis/core/blockchain.go:187-189 | a block that meets the guard but for an unpaid transaction creates value |
| Conservation.AlteredCreatesValue | Mitosis/core/blockchain.go:337-372 | one that meets it but for altered amounts creates value |
| Conservation.RepeatedCreatesValue | Mitosis/core/blockchain.go:337-372 | one that meets it but for a chunk given twice creates value |
| Conservation.ForgedCreatesValue | Mitosis/core/shardstates.go:160-189 | one that meets it but for a header of no block creates value |
| Chunks.GetChunkRoot | Mitosis/types/derive_sha.go:33-48 | the root of the trie over the transaction hashes |
| Chunks.GetBlockTxRoot | Mitosis/types/derive_sha.go:50-65 | the root of the trie over the chunk roots, holding each under the number of its shard |
| Chunks.ChunkRootCommits | Mitosis/types/derive_sha.go:33-48 | chunk roots are equal exactly if the lists of transaction hashes are |
| Chunks.CheckInboundChunk | Mitosis/core/shardstates.go:97-113 | accepts exactly the chunks whose proof leads from their root to the transaction root |
| Chunks.ChunkSound | Mitosis/core/shardstates.go:97-113 | a chunk that passes has the transaction hashes of the block's own chunk for that shard, in order |
| Chunks.TxDigestCommits | Mitosis/types/transaction.go:71-94 | the computed hash determines the transaction but for its hash field |
| Chunks.SameHashes | Mitosis/types/transaction.go:71-98 | lists with the same hash fields, one of them computed, are equal exactly if the other's are computed too |
| Chunks.ChunkGenuine | Mitosis/core/shardstates.go:97-113 | a chunk that passes is the block's own one, if that has computed hashes, exactly if it has them too |
| Chunks.AlteredPasses | Mitosis/core/shardstates.go:97-113 | whether a chunk passes depends on the hash fields, the first destination and the proof only |
| Chunks.RedirectedHash | Mitosis/core/txpool.go:147-166 | a generated cross-shard transaction has a true hash exactly if its destination was not changed |
| Chunks.CutChunks | Mitosis/core/blockchain.go:186-189 | each chunk holds the block's transactions for its shard, in order |
| Chunks.ForConcat | Mitosis/core/blockchain.go:186-189 | a shard's transactions are picked out one by one and keep their order |
| Chunks.ProveChunks | Mitosis/core/blockchain.go:198-206 | each chunk gets a proof that passes against the block's transaction root |
| Blocks.StateRootsAgree | Mitosis/core/blockchain.go:395-398 | comparing roots compares accounts |
| Blocks.CheckExact | Mitosis/core/blockchain.go:312-413 | a block is accepted exactly if it is the next one, every chunk fits its header, and both roots are those of its result and its transactions |
| Blocks.ExecutedSame | Mitosis/core/blockchain.go:337-392 | with equal balances, results are equal exactly if the same accounts exist where the block does not write |
| Blocks.AcceptedExactly | Mitosis/core/blockchain.go:312-413 | with equal balances, a leader's block, the first one included, is accepted exactly under that condition |
| Blocks.EmptyAccountRejected | Mitosis/core/blockchain.go:312-413 | an empty block of a leader without accounts is rejected by a validator that has one empty account |
| Blockchain.Blockchain.Genesis | Mitosis/core/blockchain.go:96-111 | credits every configured account and commits to the result |
| Blockchain.Blockchain.CreateNewBlock | Mitosis/core/blockchain.go:113-216 | builds a block on the latest one, with the roots of its result, the marks of exactly the shards paid to, and proven chunks; every account is settled |
| Blockchain.Blockchain.CheckBlock | Mitosis/core/blockchain.go:312-413 | the verdict is that of the rules, and whenever it accepts or rejects, accounts are as before and an accepted root is known |
| Blockchain.Blockchain.ExecuteBlock | Mitosis/core/blockchain.go:415-502 | gives the same accounts as building and checking, every one settled, unless it panics, and says exactly when |
| Blockchain.Blockchain.Commit | Mitosis/core/blockchain.go:218-232 | takes over the accounts that a known root stands for, else executes the block, and says exactly when that panics |
| Blockchain.Blockchain.RollBack | Mitosis/core/blockchain.go:504-511 | reopens the state exactly if the root is known and decodes, with the accounts it stands for |
| Blockchain.BuildCheckCommit | Mitosis/core/blockchain.go:113-413 | built by a leader, checked and committed by a validator in the same state, a block gives both the same accounts |
| Replication.DigestInjective | Mitosis/types/header.go:12-78 | a header digest determines the block and its whole history |
| Replication.BuiltIsProposal | Mitosis/core/blockchain.go:194-208 | what the leader builds on top of its chain is the proposal of the consensus with these contents |
| Replication.RunOk | Mitosis/core/blockchain.go:113-232 | in every run every correct node's database fits its chain, its settled accounts and the block it works on |
| Replication.Replicated | Mitosis/core/blockchain.go:113-413 | in every run correct nodes have the same accounts at every height both have committed, the result of executing their own blocks, even where inbound chunks differ |
| Delivery.ShardStates.UpdateHeader | Mitosis/core/shardstates.go:140-158 | the first header for a hash is kept; a waiting chunk that fits enters the pool just then |
| Delivery.ShardStates.UpdateInboundChunk | Mitosis/core/shardstates.go:191-205 | the first chunk for a place is kept; it enters the pool just then if its header is there and it fits |
| Delivery.ExactlyOnce | Mitosis/core/shardstates.go:36-81 | a place has been delivered once if header and chunk are there and fit, and never otherwise |
| Delivery.KnownIsFirst | Mitosis/core/shardstates.go:36-81 | whatever the order of events, what is known of a place is the first accepted header and the first chunk for the shard |
| Delivery.Deliver | Mitosis/core/shardstates.go:36-205 | after every sequence of headers, chunks, duplicates and takes the state is the fold of the events, and each place has been delivered once if ready, else never |
| Delivery.DeliverFirst | Mitosis/core/shardstates.go:36-205 | from nothing, a place is delivered once exactly if the first accepted header and the first chunk among the events fit, and what is delivered is that chunk |
| Delivery.TxPool.AddInboundChunk | Mitosis/core/txpool.go:102-107 | appends one chunk |
| Delivery.TxPool.TakeTxs | Mitosis/core/txpool.go:81-100 | hands out chunks from the front, none lost, repeated or overtaken |
| Delivery.EnoughIsLeast | Mitosis/core/txpool.go:81-100 | it takes the fewest chunks that reach the number of transactions, or all |

## Left out

- Range proofs, `PruneProofs`, `VerifyProofs`, trie sync and its bloom filter: written for 16 children or without a clear contract.
- `TryGetNode`, `TryUpdateNode`, difference and union iterators, `LeafProof`, metrics, storage sizes, the clean cache, preimages and object pools: bookkeeping that would only add easy members.
- Hashing and committing on several goroutines, leaf callbacks: the sequential code is modelled. The loops in hasher.go, committer.go and node.go that fill the three children of a node are expressions here.
- A short node with an empty key counts as a panic, and a digest in the place of a short node's key as a node that does not decode; the trie code produces neither.
- StackTrie.Node.Insert: does not model writing nodes to a database while streaming, `Commit` of the builder, or the reuse of the caller's value buffer; values are immutable sequences, and the encoding of a hashed node has a field of its own.
- Proofs.Prove: the proof store is a map; a chunk's proof list is an enumeration of it, in any order.
- NodeIterator.NodeIterator.Next: does not model the hash and parent fields of the stack.
- Database.Database.Insert: nodes are kept as their encodings, related to collapsed nodes by `Collapsed`; raw blobs, sizes and the 16- and 32-bit limits of the counters are not modelled.
- Database.Database.Reference: external references must go to a child of smaller digest depth and from a cached parent, as a cycle would make the source recurse forever and an unknown parent is a nil dereference.
- Database.Database.Commit: does not take the meta root's own hash, for which the source would write the meta root out and forget it.
- Database.Database.Cap: the size limit is replaced by a number of nodes; errors of the disk are not modelled here or in `Commit`.
- StateDB.StateDB.Find: accounts are keyed by the bytes the account trie is keyed by; the secure trie's hashing of addresses is an injective renaming. Logs, refunds, copies of a state and the set of dirty objects that nothing reads are not modelled. The trie is complete, so reads never fail.
- StateDB.StateDB.Revert: drops journal entries one by one; the source cuts them off at the end.
- StateDB.StateDB.Reset: the node store is closed under references, which commits keep, so that a known root can be read as a whole. With a known root that is not one of an account trie it says only that it opens or panics.
- Agreement.Agreement: is stated for votes that add nobody to a tally but their first member; `Guarantees.CountVoteExact` and `Disagreement.VotesForOthers` say what holds for other votes.
- Bft: a block stands for its header; whether its contents pass the check is part of the event, and `Replication` ties that to the check of `Blocks`. Gossip, timeouts, sleeps, goroutines and liveness are not modelled, nor that messages sent by the leader share its bitmaps and change while they are gossiped again.
- Replication.Replicated: a check that waits for a header or panics counts as one that does not accept; committing opens the state under the block's root, which checking or building has stored (`Blockchain.Blockchain.CheckBlock`, `Blockchain.Blockchain.CreateNewBlock`).
- TrieDatabase.CommitHoldReopen: others insert nodes whose children are there and drop only references they hold, which `Database.Database.Dereference` shows to be needed.
- Conservation.StepTotal: the first block of a shard, which grants balances, comes before the runs; transactions carry no data bytes, which execution does not read.
- Blockchain.Blockchain.CheckBlock: waiting for a header is a verdict of its own; the wait itself, locks, files and messages are not modelled.
- Blockchain.Blockchain.Commit: sending headers and chunks after a commit is not modelled.
- Delivery.ShardStates.UpdateHeader: only the number of signers is checked, as in the source, where the check of the header's signature is switched off.
- Random transactions, configuration parsing, p2p, event bus, message encoding, key generation and the BLS library.
