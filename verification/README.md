# HashKinetics verification

A Dafny 4.11 model of the parts of HashKinetics whose mistakes cannot be undone, and proofs of
what they promise. Check everything with `dafny verify dfyconfig.toml`.

Five state machines are modelled with their whole-run guarantees:

- **Mandate tree** (`Mandate`, `MandateTrees`, `MandateRuns`, `MandateGrowth`): hierarchical token buckets with
  lazy accrual in saturating 128-bit arithmetic, caps, revocation, and the all-or-nothing debit
  of a whole ancestor chain. The map is the object's field, changed in place; runs are sequences
  of accepted and refused operations at clock values in any order.
- **One-time-leaf signer** (`DurableFile`, `Signer`, `HashSigners`, `SignerRuns`): the signer
  over its state file. The disk is the durable directory entry and the entries renamed but not
  yet synced; a crash exposes any of them. The tree signature scheme (HSS, section 6 of RFC 8554) is
  an abstract session that signs at the leaf its key counts.
- **Shielded spend** (`Wots`, `SpendTree`, `Spend`, `Aggregate`): W-OTS digits and checksum (the
  checksum idea of section 3.1.5 of RFC 8391, without masks), chains, the padded spend tree, the statement a
  proof attests, and the digest of an aggregate proof.
- **Validator set** (`Validators`, `SetChanges`, `Rotation`, `ValidatorRuns`, `ValidatorFrames`, `SignBytes`):
  supermajority certificates, rotations, re-weights, the order of the set, its per-height
  history, and the bytes every kind of message signs.
- **Mempool** (`Admission`, `Mempools`, `MempoolRuns`, `MempoolDoor`): seventeen admission checks in their
  order, the queue with three indexes, and the key ratchet that must agree with sequential
  application of the transactions.

Smaller ones: the bridge's write-ahead ledger and its service loop (`Ledger`, `BridgeRuns`,
`BridgeChains`, `BridgePayments`, `Bridge`), PayWord channels (`PayWord`), Lamport keys (`Lamport`), the hash framing (`Hashing`),
the RLP and ABI encoders (`Rlp`, `Abi`), batch framing (`Batches`) and proposal-part reassembly
(`Streaming`). `Machine` holds integer widths, byte strings and result types.

## How to read it

- Code that changes things step by step is a method or a class; its `ensures` ties the new state
  to a specification function, and the theorems are about that function and its runs.
- Hashes are parameters. No theorem says a hash never collides; binding results ask that it not
  collide among an explicit set of inputs, those the values in question absorb.
- The environment (disk failures, crashes, provider answers, clocks) is universally quantified,
  either as parameters or as steps of a run.
- Where a promise is false of the code, the code is kept and the exact condition is proved:
  - `insert` overwrites an existing identifier. A subtree's envelope survives that exactly when
    the new node promises no more than is left (`MandateRuns.EnvelopeHoldsIff`), a revocation
    exactly when the new node is revoked (`MandateRuns.StaysRevokedIff`), the chains exactly when
    the identifier is not on the parent's chain (`MandateGrowth.RootedThroughoutIff`), and the
    narrowing exactly when no existing child is left wider (`MandateGrowth.NarrowedThroughoutIff`).
    The guard sits in the only caller of the node, `do_mandate_create`
    (`chain/crates/hk-state/src/lib.rs:975`), which refuses an identifier already present; under
    it none of the four happens (`MandateGrowth.FreshRunsKeepPromises`).
  - `quorum_power` is the least quorum only up to a total of 2^63 (`SetChanges.QuorumPowerIsLeastIff`).
  - Issuer and verifier of a rotation disagree in exactly one window (`Rotation.IssuerAndVerifierAgreeIff`).
  - A transaction that is pruned although refused can strand its pending successor
    (`MempoolRuns.RatchetedThroughoutIff` says exactly when a run keeps a sender's queue applicable).
  - A file that is there but cannot be looked up counts as absent when signer and bridge start.
    The signer then reuses no leaf exactly when its floor is past every released one
    (`SignerRuns.NoLeafEverReusedIff`); the bridge may pay once more, as it may when its ledger is
    lost with a directory entry nobody synced (`BridgeRuns.SentAtMostOnce`,
    `BridgePayments.ForgottenLedgerPaysTwice`).
  - Such a start, a refused ledger write that left its line behind, or an operator's line under a
    running service parts file and memory (`BridgeRuns.StepsTogetherIff`,
    `BridgePayments.RefusedLineComesBack`).
  - The bridge scans Ethereum up to an unsettled head (`chain/crates/hk-node/src/attest.rs:662`) and
    compares only the recorded block number with the safe one before it pays (`:718`). So an event
    can appear behind a cursor and be missed, and one that was dropped can be paid. Two guards would
    exclude both, and they are exact: no cursor line past the safe block
    (`BridgeChains.NothingEverMissedIff`), and a settled event with the record's key, amount and
    destination when the payment leaves (`BridgePayments.PaidForGoodThroughoutIff`). The other leg
    meets both (`BridgeChains.CommittedScansMissNothing`, `BridgePayments.ReleasesAreForGood`).
  - An applied rotation applies again after its root was removed and admitted anew
    (`ValidatorRuns.AppliedRotationReappliesIff`, `ValidatorRuns.RotationAppliesAgain`).
  - A spend's signature covers the credited account and the fee and nothing else; it serves
    another witness exactly when that one has the same owner tag and balances
    (`Spend.SameSignatureAcceptedIff`).
  - Round robin gives height zero and height one the same proposer (`Validators.RoundRobinFairIff`).
  - A batch without set changes whose parent hash begins with the magic does not decode to
    itself (`Batches.RoundTripIff`).
  - A stray message beyond the end of a stream can stand in for a missing one
    (`Streaming.WholeIffNoStray`), and the removal of finished streams never happens
    (`Streaming.NeverDoneAfter`).

## Model

| member | source | states |
|---|---|---|
| MandateRuns.BudgetConserved | chain/crates/hk-mandate/src/lib.rs:121-189 | over every run of inserts, revokes and spends at clock values in any order, what left through a node's subtree plus its buffer is at most its buffer before plus rate times the time it accrued, while its identifier is left alone |
| MandateRuns.BudgetExactIff | chain/crates/hk-mandate/src/lib.rs:121-189 | the same to the last unit: what left plus what is held is exactly the buffer before plus rate times the time accrued if and only if the cap never cut a credit |
| MandateRuns.EnvelopeHoldsIff | chain/crates/hk-mandate/src/lib.rs:65-189 | with identifiers used again, exactly: at every moment of a run the subtree's spending and the node's promise up to a horizon stay within the budget if and only if no accepted insert over it promises more than is left |
| MandateRuns.ReinsertionKeepsEnvelopeIff | chain/crates/hk-mandate/src/lib.rs:65-79 | one reinsertion at a rate no higher: every continuation stays in the old node's envelope if and only if the new buffer fits what the old node would have held by the new stamp |
| MandateRuns.ReinsertionBreaksEnvelope | chain/crates/hk-mandate/src/lib.rs:65-79 | an input for which it fails: reinserting a spent root exceeds its envelope with no time passing |
| MandateRuns.EnvelopeByClock | chain/crates/hk-mandate/src/lib.rs:65-189 | the bound against the clock: a subtree spends at most the buffer plus rate times the time to the latest spend, also across reinsertions that fit |
| MandateRuns.EnvelopeFromCreation | chain/crates/hk-mandate/src/lib.rs:98-189 | the envelope counted from the node's creation, after any earlier run |
| MandateRuns.ChildrenShareParentBudget | chain/crates/hk-mandate/src/lib.rs:134-189 | oversubscribed children together spend no more than is charged to their parent, over any run that leaves them under it |
| MandateRuns.StaysRevokedIff | chain/crates/hk-mandate/src/lib.rs:65-119 | a revoked node stays revoked through a run if and only if no accepted insert puts a live node over it |
| MandateRuns.ReinsertionRevives | chain/crates/hk-mandate/src/lib.rs:65-119 | a run for which it fails: a revoked root put back under its identifier spends its buffer again |
| MandateRuns.RevocationIsFinal | chain/crates/hk-mandate/src/lib.rs:117-175 | after a revoke nothing is charged in the subtree in any continuation that does not revive it, not even a zero amount |
| MandateRuns.RevocationStopsExactlySubtree | chain/crates/hk-mandate/src/lib.rs:117-175 | a revocation refuses every leaf below the node and changes no answer for any other leaf |
| MandateGrowth.InsertKeepsRootedIff | chain/crates/hk-mandate/src/lib.rs:65-79 | any accepted insert, fresh or not, keeps every chain reaching a root if and only if its identifier is not on its parent's chain |
| MandateGrowth.CycleShowsInChain | chain/crates/hk-mandate/src/lib.rs:65-146 | that condition can be read off the chain `chain_of` returns for the parent |
| MandateGrowth.RootedThroughoutIff | chain/crates/hk-mandate/src/lib.rs:65-189 | over any run every chain reaches a root at every moment if and only if no accepted insert names a parent whose chain holds it |
| MandateGrowth.ReinsertionCanCycle | chain/crates/hk-mandate/src/lib.rs:65-79 | an input for which it fails: three accepted inserts close a cycle and its chain no longer resolves |
| MandateGrowth.InsertAcceptedIff | chain/crates/hk-mandate/src/lib.rs:65-111 | both entry points accept a root always and a child exactly when its parent is there and it narrows expiry and cap, the newer one also asking for the asset; rate and buffer are free; what is accepted is put in alone |
| MandateGrowth.InsertKeepsNarrowedIff | chain/crates/hk-mandate/src/lib.rs:65-111 | any accepted insert keeps the tree narrowing if and only if it has its parent's asset and leaves no existing child wider than itself |
| MandateGrowth.NarrowedThroughoutIff | chain/crates/hk-mandate/src/lib.rs:65-189 | over any run the tree narrows at every moment if and only if every accepted insert does so |
| MandateGrowth.ReinsertionCanWiden | chain/crates/hk-mandate/src/lib.rs:65-175 | a run for which it fails: a root reinserted with an earlier expiry leaves a child that outlives it and is refused at depth 1 |
| MandateGrowth.FreshRunsKeepPromises | chain/crates/hk-state/src/lib.rs:975-982 | what the guard of the node's only caller buys: in runs whose inserts all name identifiers not present, no node is ever inserted over, refilled or revived, and no cycle closes |
| MandateGrowth.FreshInsertsFitIn | chain/crates/hk-mandate/src/lib.rs:90-111 | asset-bound inserts under fresh identifiers meet both conditions |
| MandateGrowth.SingleAssetByConstruction | chain/crates/hk-mandate/src/lib.rs:65-111 | in trees grown by such inserts a chain has one asset, and expiry and per-transaction cap only widen towards the root, at any depth |
| MandateGrowth.PolicyRefusalsOnlyAtLeaf | chain/crates/hk-mandate/src/lib.rs:152-175 | in such trees the expiry and per-transaction refusals only name depth 0 |
| MandateGrowth.GrownTreesResolve | chain/crates/hk-mandate/src/lib.rs:65-146 | in every tree grown without closing a cycle, identifiers fresh or not, each node's chain resolves unless it is longer than 64 nodes |
| Mandate.ChainOfCorrect | chain/crates/hk-mandate/src/lib.rs:134-146 | for any node map, cyclic ones included, `chain_of` succeeds exactly on a path to a root of at most 64 nodes, returns that path, and it repeats no node |
| Mandate.PathHasNoDuplicates | chain/crates/hk-mandate/src/lib.rs:134-146 | a path to a root never repeats a node, whatever the map |
| Mandate.SpendLeavesExactly | chain/crates/hk-mandate/src/lib.rs:121-189 | what an accepted spend leaves, in plain integers: every node of the chain holds the least of its cap and its buffer plus rate times the time past its stamp, less the amount once; its stamp is the later of the two times; nothing else of it and no other node changes |
| Mandate.CheckPassesIff | chain/crates/hk-mandate/src/lib.rs:152-175 | `check` passes exactly when every node of the chain is live, unexpired, within its per-transaction cap, and the amount is at most its buffer plus the drip and at most its buffer cap, in plain integers |
| Mandate.CheckVerdictIff | chain/crates/hk-mandate/src/lib.rs:152-175 | every refusal by name: the first node that does not clear, the first of four reasons that holds of it, and for want of funds exactly what it has |
| Mandate.ChainErrorIff | chain/crates/hk-mandate/src/lib.rs:134-146 | the walk reports a missing ancestor exactly when it meets one within its reach, and else too long a chain |
| Mandate.CheckFromVerdict | chain/crates/hk-mandate/src/lib.rs:152-175 | a refusal names the first node that refuses, with that node's reason and depth |
| Mandate.CheckIffWithinAvailable | chain/crates/hk-mandate/src/lib.rs:152-223 | an amount passes `check` exactly when it is at most `available` |
| Mandate.CheckCovers | chain/crates/hk-mandate/src/lib.rs:152-189 | a passed check covers every debit of the commit phase, so no subtraction underflows |
| Mandate.AccrualExact | chain/crates/hk-mandate/src/lib.rs:121-131 | accrual credits exactly rate times elapsed time up to the cap, in plain integers through every saturation, moves the stamp to the later time and changes nothing else; the projection `check` uses is the same number capped |
| Mandate.AccrualBounds | chain/crates/hk-mandate/src/lib.rs:121-131 | so it never credits more than rate times elapsed time and never less than that projection |
| MandateTrees.MandateTree.Insert | chain/crates/hk-mandate/src/lib.rs:65-79 | insertion in place: verdict and new map, nothing changed on refusal |
| MandateTrees.MandateTree.InsertAssetBound | chain/crates/hk-mandate/src/lib.rs:90-111 | the asset rule first, then insertion; nothing changed on refusal |
| MandateTrees.MandateTree.Revoke | chain/crates/hk-mandate/src/lib.rs:117-119 | revocation marks exactly one node or reports it missing |
| MandateTrees.MandateTree.WalkChain | chain/crates/hk-mandate/src/lib.rs:134-146 | the loop over parents computes the chain `ChainOfCorrect` is about |
| MandateTrees.MandateTree.CheckSpend | chain/crates/hk-mandate/src/lib.rs:152-175 | the read-only loop gives the verdict `CheckPassesIff` and `CheckFromVerdict` are about |
| MandateTrees.MandateTree.Spend | chain/crates/hk-mandate/src/lib.rs:179-189 | `spend` agrees with `check` on every verdict, debits every node of the chain exactly once, and changes nothing on error |
| MandateTrees.MandateTree.AvailableAt | chain/crates/hk-mandate/src/lib.rs:204-223 | the loop computes the minimum `CheckIffWithinAvailable` is about, with its error cases |
| MandateTrees.MandateTree.RootOf | chain/crates/hk-mandate/src/lib.rs:192-195 | the last node of the chain, or the chain's error |
| SignerRuns.NoLeafIsReused | chain/crates/hk-crypto/src/hashsig.rs:231-349 | over every run of signs, signing failures, writes that fail at any step, deaths inside a sign, crashes that expose any unsynced directory entry, and restarts with any floor: no two released signatures share a leaf, provided a start that fails to find its file has a floor past what was released |
| SignerRuns.NoLeafEverReusedIff | chain/crates/hk-crypto/src/hashsig.rs:231-349 | that proviso is exact: at every moment no continuation reuses a leaf if and only if each start for which the path did not seem to exist had a floor past every released leaf |
| SignerRuns.BlindStartIff | chain/crates/hk-crypto/src/hashsig.rs:242-263 | the same for one start: below a released leaf, signing without any failure reaches that leaf again |
| SignerRuns.AtMostCapacityReleased | chain/crates/hk-crypto/src/hashsig.rs:231-349 | over every such run at most `capacity` signatures leave, each at a leaf of the tree and under its key |
| SignerRuns.RestartResumesPastEveryLeaf | chain/crates/hk-crypto/src/hashsig.rs:231-263 | after any crash the next process resumes past its floor or refuses to start, and past a released leaf exactly when it finds the file or the floor is past it |
| SignerRuns.CleanRunSpendsEveryLeaf | chain/crates/hk-crypto/src/hashsig.rs:278-315 | without failures the leaves are spent in order, one a call, until exactly `capacity` are gone |
| SignerRuns.RestartLosesNothing | chain/crates/hk-crypto/src/hashsig.rs:231-315 | signs without failure, a crash at any exposure, a start with a floor no higher than what was signed and further signs release exactly the leaves from 0 on, one a message, each once, until the tree is spent |
| SignerRuns.ResumesAtGreatest | chain/crates/hk-crypto/src/hashsig.rs:242-263 | a start or a new attachment stands exactly at the greatest of its own position, the floor and the two counts of a file it finds and reads, on the file's key; it refuses exactly a file it finds and cannot read |
| SignerRuns.DeathCostsAtMostItsLeaf | chain/crates/hk-crypto/src/hashsig.rs:278-315 | dying inside a call releases nothing and costs its leaf exactly when its write had come through and the crash brings it back |
| SignerRuns.SignSafe | chain/crates/hk-crypto/src/hashsig.rs:278-315 | one `sign`: a signature leaves only once everything a crash can expose records a position past its leaf |
| SignerRuns.AttachSafe | chain/crates/hk-crypto/src/hashsig.rs:231-263 | attaching resumes past every released leaf, on the tree's own key, from the file if it is found and otherwise if memory or the floor is past them |
| Signer.CachedAgreesWithUncached | chain/crates/hk-crypto/src/hashsig.rs:265-349 | the cached session gives the same signature, file, key and position as a fresh expansion |
| Signer.SignReleasesIff | chain/crates/hk-crypto/src/hashsig.rs:278-315 | a call releases a signature exactly when a leaf is left, a session is open or opens, it signs, and the write ahead succeeds; otherwise key and position stay |
| Signer.SessionKeptIff | chain/crates/hk-crypto/src/hashsig.rs:278-315 | the expanded key is kept over a call exactly when it signed, on the key the next call signs with |
| Signer.FailedWriteKeepsTheLeaf | chain/crates/hk-crypto/src/hashsig.rs:278-315 | a failed write releases nothing, and a retry that succeeds ends exactly, in signature, signer and file, as if the failed call had not been made |
| Signer.BlobRoundTrip | chain/crates/hk-crypto/src/hashsig.rs:140-145 | the state file's count and key read back |
| Signer.StateAtMovesOnlyTheCount | chain/crates/hk-crypto/src/hashsig.rs:158-172 | `state_at` moves the leaf count and nothing else; `state_count` reads it back |
| HashSigners.HashSigner.AttachPersistenceWithFloor | chain/crates/hk-crypto/src/hashsig.rs:242-263 | the object takes the resumed state, from the file when the path is found to exist, or is unchanged when a file found cannot be read |
| HashSigners.HashSigner.Sign | chain/crates/hk-crypto/src/hashsig.rs:278-315 | signer, file and signature after a call are those of the specified step: reserve and write first, commit and release after |
| HashSigners.HashSigner.SignUncached | chain/crates/hk-crypto/src/hashsig.rs:321-349 | the same for the uncached path |
| DurableFile.WriteIsAtomicAndDurable | chain/crates/hk-crypto/src/fsutil.rs:43-75 | a completed write leaves only the new bytes after any crash; a failed one leaves the new bytes or what could have been left before; never a mixture |
| DurableFile.FailedWriteLeavesExactly | chain/crates/hk-crypto/src/fsutil.rs:43-75 | a write that fails only in the directory sync shows the new bytes to every reader and may expose them; one that fails before changes nothing |
| DurableFile.StateFile.WriteAtomic | chain/crates/hk-crypto/src/fsutil.rs:55-75 | create, write, sync, rename, directory sync, failing at any of them, have that effect |
| Wots.DigitsAreAnAntichain | zkvm-bakeoff/circuit/src/lib.rs:211-230 | for any two different messages some of the 67 digits is strictly smaller for the second |
| Wots.DigitsSpellMessage | zkvm-bakeoff/circuit/src/lib.rs:211-230 | each byte is two digits, the high half first, and the last three spell what the others lack to 15 each |
| Wots.SmallerChecksumHasSmallerDigit | zkvm-bakeoff/circuit/src/lib.rs:216-230 | a smaller checksum has a smaller nibble, since three nibbles hold it exactly |
| Wots.WotsDigits | zkvm-bakeoff/circuit/src/lib.rs:216-230 | the loops fill the 64 nibbles and the three checksum nibbles |
| Wots.WotsChain | zkvm-bakeoff/circuit/src/lib.rs:200-210 | the loop walks a chain |
| Wots.WotsOwner | zkvm-bakeoff/circuit/src/lib.rs:246-253 | the loop over the chains gives the owner digest |
| Wots.WotsSign | zkvm-bakeoff/circuit/src/lib.rs:256-264 | each chain is walked up to its digit |
| Wots.WotsRecoverOwner | zkvm-bakeoff/circuit/src/lib.rs:337-348 | each entry is walked the rest of the way; a list of the wrong length recovers nothing |
| Wots.SignThenRecover | zkvm-bakeoff/circuit/src/lib.rs:246-348 | a signature recovers exactly the signer's key, for every seed and message |
| Wots.SecretsDistinct | zkvm-bakeoff/circuit/src/lib.rs:246-264 | every chain of every seed starts from a secret of its own |
| Wots.OwnersDistinct | zkvm-bakeoff/circuit/src/lib.rs:235-253 | two seeds have one owner digest only if they are equal, unless the hash collides among what the two keys hash |
| Wots.SecondMessageNeedsPreimage | zkvm-bakeoff/circuit/src/lib.rs:333-348 | a second message under the same key needs a strict preimage of a revealed chain value, unless the hash collides among the inputs the two recoveries absorb |
| SpendTree.AuthPathFoldsToRoot | zkvm-bakeoff/circuit/src/lib.rs:295-331 | for every height the code can count and every leaf, the path `spend_auth` gives folds the leaf up to `spend_root` |
| SpendTree.LeavesHaveTheirOwnKeys | zkvm-bakeoff/circuit/src/lib.rs:246-275 | two leaves, of one address or of two, share a seed, a chain's secret or an owner digest only if they are the same leaf, unless the hash collides among the inputs that derive them |
| SpendTree.SpendAuthSignsUnderItsLeaf | zkvm-bakeoff/circuit/src/lib.rs:287-331 | a signature of `spend_auth` recovers the leaf digest at its own index and at no other |
| SpendTree.SpendRootIsPlainRoot | zkvm-bakeoff/circuit/src/lib.rs:279-306 | the root with its ladder of empty roots is the plain root of the depth-10 tree padded with zero leaves, or of the tree's own height where that is greater |
| SpendTree.LevelsReachPlainRoot | zkvm-bakeoff/circuit/src/lib.rs:295-306 | collapsing a level in pairs until one node is left gives the root defined by halves |
| SpendTree.FoldPath | zkvm-bakeoff/circuit/src/lib.rs:374-397 | the loop that tests a bit of the index at each level computes the fold |
| SpendTree.OtsEmptyRoots | zkvm-bakeoff/circuit/src/lib.rs:279-285 | the ladder of empty roots |
| SpendTree.ComputeSpendRoot | zkvm-bakeoff/circuit/src/lib.rs:295-306 | the loops compute the address root |
| SpendTree.SpendAuth | zkvm-bakeoff/circuit/src/lib.rs:316-331 | the loops give the signature and the siblings `AuthPathFoldsToRoot` is about |
| Spend.Run | zkvm-bakeoff/circuit/src/lib.rs:356-416 | the statement's program computes the specified verdict with its errors in order |
| Spend.AcceptedIff | zkvm-bakeoff/circuit/src/lib.rs:356-416 | a witness is accepted exactly when shapes, ownership and conservation hold, with values conserved as integers |
| Spend.RefusedIff | zkvm-bakeoff/circuit/src/lib.rs:356-416 | every refusal by name: lengths of the two paths, shape of the signature, owner, and balance only for what has passed these |
| Spend.HonestWitnessAccepted | zkvm-bakeoff/circuit/src/lib.rs:246-416 | every balanced witness built by the wallet's functions is accepted with the expected public values for trees of height up to 10, and refused for the length of its path for taller ones |
| Spend.SameSignatureAcceptedIff | zkvm-bakeoff/circuit/src/lib.rs:356-470 | the signature of an accepted witness serves another witness if and only if that one spends a note of the same owner tag, has a path of the right length and balances |
| Spend.OutputsAreNotSigned | zkvm-bakeoff/circuit/src/lib.rs:460-470 | the outputs can be replaced by any pair of the same sum under the same signature, anchor and nullifier |
| Spend.BindingIsCreditAndFee | zkvm-bakeoff/circuit/src/lib.rs:460-473 | what is signed decides the credited account and the fee |
| Spend.SamePositionSameNullifier | zkvm-bakeoff/circuit/src/lib.rs:356-447 | double-spend guard: two accepted witnesses with the same root and the same low 32 index bits spend equal notes and show the same nullifier, unless the hash collides among the inputs the two proofs name |
| Spend.OneNullifierPerNote | zkvm-bakeoff/circuit/src/lib.rs:356-447 | a note has one nullifier, whoever proves it |
| Spend.SameNullifierSameSeed | zkvm-bakeoff/circuit/src/lib.rs:432-434 | a shared nullifier shows the same key and note seed |
| Spend.HighIndexBitsIgnored | zkvm-bakeoff/circuit/src/lib.rs:374-397 | index bits above the 32 levels do not change the statement |
| Spend.FoldInjective | zkvm-bakeoff/circuit/src/lib.rs:374-429 | equal folds along equal index bits start from equal leaves |
| Aggregate.DigestBindsItems | zkvm-bakeoff/circuit/src/agg.rs:31-52 | the aggregate digest binds number, order, kinds, keys and public bytes of the covered proofs |
| Aggregate.LeafInputDecides | zkvm-bakeoff/circuit/src/agg.rs:31-40 | a leaf's bytes decide kind, key and publics, even for publics too long for the length field |
| Aggregate.LayoutReads | zkvm-bakeoff/circuit/src/agg.rs:21-52 | the layouts read back: kind, little-endian words, big-endian length and publics; a big-endian count and the leaves in order |
| Aggregate.VkeyBytes | zkvm-bakeoff/circuit/src/agg.rs:23-29 | the loop lays the words out in little-endian bytes |
| Aggregate.AggDigest | zkvm-bakeoff/circuit/src/agg.rs:44-52 | the loop absorbs the count and the leaves in order |
| ValidatorRuns.RunWellFormed | chain/crates/hk-consensus/src/setchange.rs:156-350 | every run of set changes, rotations and in-bound re-weights keeps the set nonempty, with distinct roots and addresses, powers in 1..=2^32, and in order |
| ValidatorRuns.NoRunSaturates | chain/crates/hk-consensus/src/context.rs:547-551 | with at most 2^16 seats no step of any run saturates a quorum product |
| ValidatorRuns.EpochMonotoneWhileSeated | chain/crates/hk-consensus/src/context.rs:595-625 | a seat's epoch never falls while it stays seated |
| ValidatorRuns.AppliedRotationNeverReapplies | chain/crates/hk-consensus/src/rotation.rs:245-285 | an applied rotation is refused at every height of every continuation in which the seat stays |
| ValidatorRuns.AppliedRotationReappliesIff | chain/crates/hk-consensus/src/rotation.rs:245-285 | after any continuation an applied rotation applies again exactly when its root is seated at a lower epoch, the window is open and the signature is good in the height's domain; and then the root was admitted anew on the way |
| ValidatorRuns.RotationAppliesAgain | chain/crates/hk-consensus/src/context.rs:595-625 | it does happen: rotate, remove, admit anew, and the same rotation certificate applies a second time |
| ValidatorRuns.OnlyAdmissionSeats | chain/crates/hk-consensus/src/setchange.rs:270-350 | no step seats a root that had no seat but the admission of that root |
| ValidatorRuns.AdmissionStartsAtEpochZero | chain/crates/hk-consensus/src/setchange.rs:270-328 | why the seat must stay: a root admitted anew starts at epoch zero |
| ValidatorRuns.RotationAcceptedIff | chain/crates/hk-consensus/src/rotation.rs:245-285 | a rotation applies exactly when its root is seated at a lower epoch, the window holds and the signature is good in the domain of the height |
| ValidatorRuns.ReplayNeverChangesAgain | chain/crates/hk-consensus/src/setchange.rs:270-328 | once a certificate has changed the set, replaying it never changes it again until another step alters the same root |
| ValidatorRuns.ChangeSettlesSubject | chain/crates/hk-consensus/src/setchange.rs:270-328 | an applied change leaves its subject exactly as it says |
| ValidatorFrames.StepSeats | chain/crates/hk-consensus/src/setchange.rs:270-350 | any step that applies leaves every root it does not name with the same seat in all fields, or without one, and renews the seat it names as the operation says and in no other field |
| ValidatorFrames.UnnamedSeatStays | chain/crates/hk-consensus/src/setchange.rs:270-350 | the same over every run of changes, rotations and re-weights |
| ValidatorFrames.ChangeMovesPower | chain/crates/hk-consensus/src/setchange.rs:270-328 | a set change moves the total power by exactly what its subject gains or loses |
| ValidatorFrames.ChangeVerdictIff | chain/crates/hk-consensus/src/setchange.rs:270-328 | every verdict on a verified change by name: outside its window, already so, an address that is seated, the last seat, a root without a seat, or applied |
| ValidatorFrames.CertVerdictIff | chain/crates/hk-consensus/src/setchange.rs:156-259 | every refusal of a certificate by name: the first defect of its shape, another chain, no approvals, the first bad approval, too little power |
| ValidatorFrames.RotationVerdictIff | chain/crates/hk-consensus/src/rotation.rs:211-285 | every refusal of a rotation by name, in plain integers: no root, an epoch that is not newer, a height not there yet, one too long ago, a signature of the older domain, any other signature |
| ValidatorRuns.CommitKeepsCurrent | chain/crates/hk-node/src/state.rs:1403-1575 | committing a block records the sets it produced from the next height on and changes no earlier answer |
| ValidatorRuns.PhaseRecordsIff | chain/crates/hk-node/src/state.rs:1403-1575 | a phase of a block adds one entry, for the next height and the set it leaves, exactly if some operation of it applied |
| ValidatorRuns.BlocksRunTheirOperations | chain/crates/hk-node/src/state.rs:1403-1575 | the set a node holds after any blocks is the run of exactly their operations in order |
| ValidatorRuns.HistoryAnswersTheSetInForce | chain/crates/hk-consensus/src/context.rs:691-699 | after any run of blocks the history answers, for every height, the set after exactly the blocks below it |
| SetChanges.QuorumsIntersect | chain/crates/hk-consensus/src/setchange.rs:224-259 | two certificates accepted against one set share approvers with more than one third of its power |
| SetChanges.CertificateAcceptedIff | chain/crates/hk-consensus/src/setchange.rs:224-259 | a certificate verifies exactly when shape and chain are right and distinct seated roots with strictly more than two thirds of the power approved it |
| SetChanges.ApprovalCoversEveryField | chain/crates/hk-consensus/src/setchange.rs:156-259 | an approval of one change is good for exactly that change, key and signature, at the lengths of a root key and signature |
| SetChanges.TallyIsPowerOfApprovers | chain/crates/hk-consensus/src/setchange.rs:224-259 | the loop's sum is the power of the set of distinct approving roots |
| SetChanges.VerifyCertAgainst | chain/crates/hk-consensus/src/setchange.rs:224-259 | the loop gives the specified verdict |
| SetChanges.QuorumTestIff | chain/crates/hk-consensus/src/setchange.rs:224-259 | the saturating comparison is the exact one while twice the total fits, and fails closed above |
| SetChanges.QuorumPowerIsLeastIff | chain/crates/hk-consensus/src/setchange.rs:354-356 | `quorum_power` is the least power above two thirds exactly for totals up to 2^63 |
| SetChanges.ReweightRootsInPlace | chain/crates/hk-consensus/src/setchange.rs:336-350 | re-weighting touches exactly the named roots and reports whether anything changed |
| SetChanges.AdmitWellFormed | chain/crates/hk-consensus/src/setchange.rs:270-328 | admission adds exactly the newcomer and keeps the set well formed |
| SetChanges.RemoveWellFormed | chain/crates/hk-consensus/src/setchange.rs:270-328 | removal takes out exactly the root and keeps the set well formed |
| SetChanges.ReweighWellFormed | chain/crates/hk-consensus/src/setchange.rs:270-350 | a new weight keeps the set well formed |
| Rotation.RotationKeepsTheSet | chain/crates/hk-consensus/src/context.rs:595-625 | a rotation changes exactly the certified seat's key and epoch and keeps order and power, so it needs no sort |
| Rotation.EpochOnlyGrows | chain/crates/hk-consensus/src/context.rs:595-625 | no seat's epoch falls under a rotation |
| Rotation.IssuerAndVerifierAgreeIff | chain/crates/hk-consensus/src/rotation.rs:94-106 | issuer and verifier pick the same domain except exactly when a certificate named before the switch commits after it |
| Rotation.WindowIsAnInterval | chain/crates/hk-consensus/src/rotation.rs:211-234 | the freshness window is one interval of heights at every height, its end never saturating into a refusal, and absent before the switch |
| Rotation.RotationBoundToChain | chain/crates/hk-consensus/src/rotation.rs:136-161 | a v2 rotation message of one chain is none of another; a v1 message does not name its chain |
| Rotation.SignatureCoversEveryField | chain/crates/hk-consensus/src/rotation.rs:136-209 | a root's signature over one rotation is good for the certificate of exactly that root, key, epoch and height, in that domain and, under v2, on that chain |
| Validators.NewSetSorts | chain/crates/hk-consensus/src/context.rs:511-518 | the set is ordered by power then address and holds exactly the given validators |
| Validators.OrderedArrangementUnique | chain/crates/hk-consensus/src/context.rs:511-518 | with distinct addresses there is one ordered arrangement only |
| Validators.NewSetWellFormed | chain/crates/hk-consensus/src/context.rs:511-518 | a set built from distinct validators with powers in range is well formed |
| Validators.TotalVotingPower | chain/crates/hk-consensus/src/context.rs:547-551 | the saturating fold is the true sum capped at the type's largest value |
| Validators.BoundedSetsDoNotSaturate | chain/crates/hk-consensus/src/context.rs:547-551 | with at most 2^16 seats the reported total and its triple are exact |
| Validators.SharedPower | chain/crates/hk-consensus/src/setchange.rs:224-259 | two groups' powers exceed the total by at most what they share |
| Validators.RoundRobinFairIff | chain/crates/hk-consensus/src/context.rs:735-751 | over `n` consecutive heights each of `n` seats proposes exactly once if and only if they do not start at height zero, or `n` is 1 |
| Validators.SetAtIsLastInEffect | chain/crates/hk-consensus/src/context.rs:691-699 | the lookup answers the last set in effect at the height, or none exactly when the height precedes all |
| Validators.LaterEntriesKeepEarlierAnswers | chain/crates/hk-consensus/src/context.rs:691-699 | later entries never change earlier answers |
| Validators.SetHistory.ValidatorSetAt | chain/crates/hk-consensus/src/context.rs:691-699 | the backwards search over the shared list gives that answer |
| SignBytes.SignBytesDecideTheMessage | chain/crates/hk-consensus/src/context.rs:221-430 | votes, proposals, parts, rotations of both versions and set changes have equal sign-bytes exactly when they agree in kind and in every signed field |
| MempoolRuns.RatchetedThroughoutIff | chain/crates/hk-node/src/mempool.rs:319-556 | over every run of admissions and blocks, a sender's pending nonces are at every moment contiguous from the chain's in queue order, each key opening the commitment before it, if and only if every block is tidy for that one sender |
| MempoolRuns.RunKeepsRatchet | chain/crates/hk-node/src/mempool.rs:319-556 | hence at the end of every run whose blocks are tidy for the sender, whatever others submit |
| MempoolRuns.CommitKeepsSenderIff | chain/crates/hk-node/src/mempool.rs:538-556 | one block keeps a sender's ratchet exactly when it is tidy: it covers the sender's whole queue, or leaves no hole and last applied the queue's own commitment |
| MempoolRuns.BlockKeepsRatchetIff | chain/crates/hk-state/src/lib.rs:606-690 | the same for the account's own step rule and the pruned slots |
| MempoolRuns.HeadOfQueueIsTidy | chain/crates/hk-node/src/mempool.rs:538-556 | a block that applies the head of a sender's queue in order is tidy |
| MempoolRuns.RefusedHeadStrandsSuccessor | chain/crates/hk-node/src/state.rs:1283-1301 | a refused payload is pruned all the same and strands its pending successor, which the chain then cannot apply |
| MempoolRuns.FifoAccepts | chain/crates/hk-node/src/mempool.rs:484-508 | when the queue is proposed in order, each envelope is accepted exactly when no earlier payload of its sender was refused |
| MempoolRuns.AdmittedIsNext | chain/crates/hk-node/src/mempool.rs:484-500 | an admitted transaction is the next one of its sender, under the key the one before committed to |
| MempoolDoor.AdmittedIffNext | chain/crates/hk-node/src/mempool.rs:319-508 | with exact indexes and a sender in order a transaction is admitted if and only if there is room, its id is new, its nonce is the chain's plus the length of the sender's queue and within the window, its key opens the queue's last commitment, its signature is good, and its payload is within the bounds of its kind with no nullifier spent or pending |
| MempoolDoor.RepliesWithIdIffNext | chain/crates/hk-node/src/mempool.rs:319-508 | so the reply is the id exactly then |
| MempoolDoor.StepPushesIffNext | chain/crates/hk-node/src/mempool.rs:319-528 | a step of a run pushes exactly such a transaction, behind all others |
| MempoolDoor.NonceInWindow | chain/crates/hk-node/src/mempool.rs:456-470 | whatever the pool holds, nothing below the account's nonce or at or past its window is admitted |
| MempoolDoor.RefusalsAreTrue | chain/crates/hk-node/src/mempool.rs:334-508 | every refusal states a fact of the queue and the chain, with the right numbers in it |
| MempoolDoor.ReplyIsFirstTrouble | chain/crates/hk-node/src/mempool.rs:319-508 | the reply names the first of seventeen things wrong, each told in terms of the queue and the chain, and is the id exactly when none is |
| MempoolDoor.DigestCoversEveryField | chain/crates/hk-state/src/tx.rs:193-200 | the signed digest covers payload, sender, nonce and next commitment, unless the hash collides between two named inputs |
| MempoolRuns.RunIndexed | chain/crates/hk-node/src/mempool.rs:334-556 | over every run the three indexes are exactly the images of the queue, nothing is queued twice, and the cap holds |
| MempoolRuns.PrunedQueueOf | chain/crates/hk-node/src/mempool.rs:538-556 | pruning commutes with looking at one sender |
| Admission.DoorAgreesWithApply | chain/crates/hk-node/src/mempool.rs:355-504 | at the chain's nonce the door's envelope checks pass exactly when the chain would accept the envelope |
| Admission.OneReply | chain/crates/hk-node/src/mempool.rs:319-440 | every transaction has exactly one reply, so the two entry points agree on verdict and reason |
| Admission.TooCostlyOnlyOnLongChannels | chain/crates/hk-node/src/mempool.rs:408-424 | the cost refusal only meets channels opened longer than the cap |
| Admission.EnterKeepsIndexed | chain/crates/hk-node/src/mempool.rs:470-528 | an admitted transaction keeps the indexes exact and free of duplicates |
| Admission.PruneKeepsIndexed | chain/crates/hk-node/src/mempool.rs:530-556 | pruning keeps the indexes exact |
| Mempools.ComputeVerdict | chain/crates/hk-node/src/mempool.rs:355-379 | the state-free half of admission on the transaction's own bytes |
| Mempools.Mempool.TryAdmit | chain/crates/hk-node/src/mempool.rs:319-330 | the reply is the id when every check passes, else the error of the first check in order that fails; the pool changes only on admission |
| Mempools.Mempool.TryAdmitVerified | chain/crates/hk-node/src/mempool.rs:432-441 | the same reply with the verdict computed beforehand |
| Mempools.Mempool.AdmitGated | chain/crates/hk-node/src/mempool.rs:445-508 | the checks after the gate, then index and push |
| Mempools.Mempool.Gate | chain/crates/hk-node/src/mempool.rs:334-346 | capacity, duplicate id and pending slot, in that order |
| Mempools.Mempool.ChannelSettleCap | chain/crates/hk-node/src/mempool.rs:408-424 | the settlement's advance, then its cost |
| Mempools.Mempool.RemoveIncluded | chain/crates/hk-node/src/mempool.rs:540-556 | the one-pass prune equals the filter on the whole queue, with its count, and takes exactly the dropped entries out of the indexes |
| BridgeRuns.SentAtMostOnce | chain/crates/hk-node/src/attest.rs:696-892 | for every deposit or burn, over every run with crashes between any two steps and writes failing in every way, at most one submission that did not report failure leaves, plus one for each time the operator puts the record back to seen or a ledger is lost or not seen at a start |
| BridgeRuns.SendsAtMostOnce | chain/crates/hk-node/src/attest.rs:696-892 | the same counted on the run itself: accepted submissions of a record against decisions to put it back and starts without the ledger |
| BridgePayments.ForgottenLedgerPaysTwice | chain/crates/hk-node/src/attest.rs:190-207 | an input that needs the last allowance: the file is lost with its unsynced directory entry, or the look for it fails, and a settled deposit is paid twice |
| BridgePayments.EveryPaymentIsBacked | chain/crates/hk-node/src/attest.rs:681-892 | every submission pays exactly the amount and the destination of an event some chain has held, whatever blocks were replaced |
| BridgePayments.BackedForGoodIff | chain/crates/hk-node/src/attest.rs:696-760 | a payment has its event under every allowed move of the chains if and only if a settled event is for exactly its key, amount and destination |
| BridgePayments.PaidForGoodThroughoutIff | chain/crates/hk-node/src/attest.rs:696-760 | over every run, at every moment and under every further move of the chains everything paid has its event, if and only if each submission, when it left, was for such a settled event; the code compares the recorded block number alone |
| BridgePayments.ReleasesAreForGood | chain/crates/hk-node/src/attest.rs:762-892 | the releases do meet it, in every run: each is for a committed burn of exactly its key, amount and destination |
| BridgePayments.DroppedEventIsPaid | chain/crates/hk-node/src/attest.rs:681-757 | the mints do not: an event recorded before its block is settled is paid after the block was replaced without it |
| BridgePayments.PaidWhatTheChainsHoldIff | chain/crates/hk-node/src/attest.rs:652-892 | in the terms of the moves that happened: every record and payment is at every moment for an event the chains hold then, if and only if no move drops the event behind one |
| BridgePayments.SettledEventStays | chain/crates/hk-node/src/attest.rs:640-650 | an event in a settled block stays, and with it what was paid for it |
| BridgeChains.CompleteForGoodIff | chain/crates/hk-node/src/attest.rs:652-679 | given that nothing is missing now, no allowed move of a chain puts an event behind the cursor if and only if the cursor is not past the settled block, or has not left its start |
| BridgeChains.NothingEverMissedIff | chain/crates/hk-node/src/attest.rs:652-802 | over every run, at every moment and under every further move every event at or below a cursor has a record, in the process and in any process started later from the file, if and only if no cursor line was written past what was settled then; the code scans Ethereum to the head |
| BridgeChains.CommittedScansMissNothing | chain/crates/hk-node/src/attest.rs:762-784 | the scan of HashKinetics reads committed heights only and meets the guard in every run |
| BridgeChains.MissedEvent | chain/crates/hk-node/src/attest.rs:652-679 | the scan of Ethereum does not: a block at the head is passed and then replaced by one with a deposit, which is behind the cursor with no record |
| BridgeChains.NothingMissedBelowCursorIff | chain/crates/hk-node/src/attest.rs:652-802 | in the terms of the moves that happened: nothing is missing at any moment if and only if no event appears without a record at or below a cursor already written |
| BridgeChains.StepCompleteIff | chain/crates/hk-node/src/attest.rs:652-802 | every step of the service and its operator keeps that, and a move exactly when it puts no such event there |
| BridgeRuns.StepsTogetherIff | chain/crates/hk-node/src/attest.rs:190-270 | a step keeps file and memory in agreement exactly when it is not a refused write that left something behind, an operator's line under a running process, or a start that misses a ledger with something to say |
| BridgePayments.RefusedLineComesBack | chain/crates/hk-node/src/attest.rs:253-270 | it does happen: a line is refused after it reached the file, and reopening brings back a record the process never had |
| BridgeRuns.ReopeningRestoresMemory | chain/crates/hk-node/src/attest.rs:190-207 | without such a step, reopening rebuilds exactly the records and cursors |
| Ledger.KeyInjective | chain/crates/hk-node/src/attest.rs:185-187 | kinds hold no colon, so two records share a key only when they are the same |
| Ledger.ReplayIsLastWord | chain/crates/hk-node/src/attest.rs:190-251 | reading a ledger back: a record exactly where a line is about it, each field as the last line that gives it, its attempts counted, each cursor as its last line says or one block before the start |
| Bridge.LedgerFile.OpenFile | chain/crates/hk-node/src/attest.rs:190-207 | opening a file that is found folds every line, and fails on a line that does not parse; one that is not found starts empty and is appended to |
| Bridge.LedgerFile.Write | chain/crates/hk-node/src/attest.rs:254-270 | the line is in the file before it is in memory; a failed write leaves memory as it was |
| Bridge.LedgerFile.InStates | chain/crates/hk-node/src/attest.rs:284-290 | the records of a kind in given states, each once |
| Bridge.Service.RecordEthEvent | chain/crates/hk-node/src/attest.rs:681-693 | first sight of an event adds its record; one on record is left alone |
| Bridge.Service.ScanEthPage | chain/crates/hk-node/src/attest.rs:661-677 | one page: every event of its blocks is recorded before the cursor moves past them; a page size of zero leaves the cursor where it was |
| Bridge.Service.ScanEth | chain/crates/hk-node/src/attest.rs:652-679 | a scan up to the head with the chains moving between pages: no record it finds is touched, and everything at or below the cursor is recorded unless some move put an event behind it; given a head within the settled blocks, as it is not, no move could |
| Bridge.Service.RecordHkBurn | chain/crates/hk-node/src/attest.rs:786-802 | only a 20-byte destination with a known receipt may be paid without the operator |
| Bridge.Service.ScanHk | chain/crates/hk-node/src/attest.rs:762-784 | a bounded number of committed heights a tick: no record it finds is touched, and every burn at or below the cursor is recorded, at any outcome and under every further move |
| Bridge.Service.Submit | chain/crates/hk-node/src/attest.rs:739-755 | no submission before the line ahead of it is on disk; one that reports failure goes back to seen |
| Bridge.Service.MintOne | chain/crates/hk-node/src/attest.rs:706-757 | a deposit moves to the state its answers call for |
| Bridge.MintMovesIff | chain/crates/hk-node/src/attest.rs:696-757 | which answers lead a deposit to which state: a receipt that begins with `ok` confirms, any other rejects, and every other state has its one cause |
| Bridge.Service.ReleaseOne | chain/crates/hk-node/src/attest.rs:822-889 | a burn moves to the state its answers call for |
| Bridge.ReleaseMovesIff | chain/crates/hk-node/src/attest.rs:805-889 | which answers lead a burn to which state: the contract's own record first, then an earlier submission, the switch, the allowance, and the first news of twenty polls |
| Bridge.PlanMovesIff | chain/crates/hk-node/src/attest.rs:805-889 | a burn whose id is not 32 bytes stays where it is and is never submitted |
| Bridge.Service.AwaitReceipt | chain/crates/hk-node/src/attest.rs:867-881 | up to twenty polls; the first news decides |
| Bridge.Service.ProcessEthEvents | chain/crates/hk-node/src/attest.rs:696-760 | a pass that succeeds leaves every due deposit in its next state, submitted once if it was to be, and every other record untouched; at most once holds at any outcome |
| Bridge.Service.ProcessHkBurns | chain/crates/hk-node/src/attest.rs:805-892 | the same for burns |
| Bridge.SweepsCompose | chain/crates/hk-node/src/attest.rs:698-759 | the passes over two kinds are one pass over both |
| PayWord.ClaimAlwaysSettles | chain/crates/hk-crypto/src/payword.rs:55-101 | after any sequence of `accept` calls the claim passes `verify_settlement`, the returned increments sum to the last step, and it is within the cap |
| PayWord.HonestWordAccepted | chain/crates/hk-crypto/src/payword.rs:62-78 | an honest later word is accepted however many steps it skips; a failure changes nothing |
| PayWord.HonestRunReachesHighest | chain/crates/hk-crypto/src/payword.rs:62-78 | any run of honest payments ends at the highest step paid |
| PayWord.OnlyThePayersWordSettles | chain/crates/hk-crypto/src/payword.rs:92-101 | a settlement for a step needs the payer's own word, unless links collide |
| PayWord.Mint | chain/crates/hk-crypto/src/payword.rs:22-30 | the backwards loop fills a chain in which each word links to the one before |
| PayWord.PaywordVerifier.Accept | chain/crates/hk-crypto/src/payword.rs:62-78 | `accept` changes the verifier as specified |
| PayWord.VerifySettlement | chain/crates/hk-crypto/src/payword.rs:92-101 | the loop decides the settlement relation |
| Hashing.FramingDecides | chain/crates/hk-crypto/src/hash.rs:31-43 | two absorbed byte strings are equal exactly when domain and parts are |
| Hashing.Absorb | chain/crates/hk-crypto/src/hash.rs:31-43 | the loop feeds domain, separator and length-prefixed parts |
| Lamport.HonestSignatureValid | chain/crates/hk-crypto/src/lamport.rs:34-76 | every honest signature verifies |
| Lamport.SecondDigestOpensNewChunk | chain/crates/hk-crypto/src/lamport.rs:51-76 | a valid signature on a second digest opens a chunk the first left closed |
| Lamport.KeysDistinct | chain/crates/hk-crypto/src/lamport.rs:34-49 | every ratchet position of every seed has a public key and commitment of its own, unless the hash collides among named inputs |
| Lamport.SecretsDistinct | chain/crates/hk-crypto/src/lamport.rs:34-44 | every chunk of every key is a secret of its own |
| Lamport.BitsSpellMessage | chain/crates/hk-crypto/src/lamport.rs:51-76 | the bits spell the digest, the most significant of each byte first |
| Lamport.Keygen | chain/crates/hk-crypto/src/lamport.rs:34-44 | the loop derives each secret chunk and its public leaf |
| Lamport.SignDigest | chain/crates/hk-crypto/src/lamport.rs:51-61 | the loop reveals the chunk each bit selects |
| Lamport.Verify | chain/crates/hk-crypto/src/lamport.rs:63-76 | the loop accepts exactly when every revealed chunk hashes to its public one |
| Rlp.ItemRoundTrip | chain/crates/hk-node/src/eth.rs:334-370 | an encoded item reads back exactly, whatever follows it (Appendix B of the Ethereum Yellow Paper) |
| Rlp.ItemsRoundTrip | chain/crates/hk-node/src/eth.rs:364-370 | a list of items reads back exactly |
| Rlp.UintBytes | chain/crates/hk-node/src/eth.rs:355-362 | a scalar's minimal bytes give it back, zero included |
| Rlp.UnsignedDecides | chain/crates/hk-node/src/eth.rs:384-397 | the signed bytes decide every field of the transaction |
| Rlp.RawDecides | chain/crates/hk-node/src/eth.rs:384-411 | the broadcast bytes decide transaction and signature, with the scalars' leading zeros restored |
| Abi.EncodeAttestedCall | chain/crates/hk-node/src/eth.rs:163-184 | the encoder with its running offset writes a call that decodes by its offsets to exactly the arguments |
| Abi.WordRoundTrip | chain/crates/hk-node/src/eth.rs:149-153 | a word reads back as its number |
| Abi.CallDecides | chain/crates/hk-node/src/eth.rs:163-184 | a call decodes to one list of arguments only |
| Batches.RoundTripIff | chain/crates/hk-node/src/batch.rs:129-162 | `decode` undoes `encode` exactly when the batch has set changes or its parent hash lacks the magic |
| Batches.OldNodesStillRead | chain/crates/hk-node/src/batch.rs:129-162 | a node that knows only the older layout reads every batch without set changes as it was made, and agrees with a newer one exactly when the parent hash lacks the magic |
| Streaming.HonestStreamDelivered | chain/crates/hk-node/src/streaming.rs:42-128 | an honest proposer's parts are handed on whole and in order, exactly at the arrival that completes the stream, whatever the order and the repetitions |
| Streaming.AtMostOneProposal | chain/crates/hk-node/src/streaming.rs:42-128 | whatever a peer sends, a stream hands on at most one proposal |
| Streaming.WholeIffNoStray | chain/crates/hk-node/src/streaming.rs:43-81 | what is handed on is whole exactly when no message beyond the end was counted |
| Streaming.StrayStandsIn | chain/crates/hk-node/src/streaming.rs:43-81 | a message beyond the end does stand in for a missing one |
| Streaming.NeverDoneAfter | chain/crates/hk-node/src/streaming.rs:121-127 | the guard that would remove a finished stream is never true, since the first part was taken |
| Streaming.StreamState.Drain | chain/crates/hk-node/src/streaming.rs:47-55 | the loop empties the heap in order of sequence |
| Streaming.StreamState.InsertNew | chain/crates/hk-node/src/streaming.rs:57-81 | one message into one stream |
| Streaming.PartStreamsMap.InsertPart | chain/crates/hk-node/src/streaming.rs:109-128 | the stream of the message takes it, every other stream stays |

## Left out

- Mandate nodes: holder keys, schemes and tiers, which no rule modelled here reads.
- Real SHA-256, SHAKE, Keccak, HSS, SLH-DSA, ML-KEM, secp256k1 and STARK proving: parameters or absent.
- HSS key handling below the session interface (the hbs-lms library is not part of this model); what is assumed of it is that a session signs at the leaf its key counts, leaves the next key pending, and wipes the key at the last leaf.
- `load_state` of the signer, and two signers on one file.
- File-system effects on systems without directory sync.
- ValidatorRuns.RunWellFormed: re-weights are the in-bound ones (power 1 to 2^32), which is what the node's own constant is.
- Validators.RoundRobinFairIff: windows whose heights and round add up past 64 bits, where the code's index arithmetic overflows.
- Vote extensions: raw bytes, not produced by the application.
- SpendTree.SpendAuth: spend trees of height above 31, for which the code's 32-bit leaf count overflows.
- PayWord.Mint: chains of `u32::MAX` words, where the code's length computation overflows.
- MempoolRuns.RunKeepsRatchet: restored transactions (`insert_unchecked`) skip the slot and nullifier checks and are kept out of runs.
- Account nonces at the 64-bit limit: a nonce is a natural number once applied.
- Balances, fees, pools' roots and every payload's own rule (hk-state): a payload's verdict is an input of a block; anchors and spent nullifiers are sets.
- Bundles, receipts and search indexes kept beside the mempool.
- BridgeRuns.SentAtMostOnce: a submission that reports failure is taken not to have entered, as the code's comments state.
- BridgeChains.NothingEverMissedIff: within one page of blocks the chains stand still; a move made while a page is recorded counts as made after its cursor line.
- Bridge.Service.ScanEth: a page size of zero, with which the code's loop never ends (`ScanEthPage` shows that the cursor then stays).
- BridgeChains.CommittedScansMissNothing: that committed blocks of HashKinetics never change is taken from its consensus, and a node that answers a scan answers with them.
- A ledger line that was written and acknowledged as failed may vanish on power loss; here it stays, is absent or is torn from the start.
- Attestation collection, gas, contract calls and the daily allowance behind their answers; the `reconcile` alert.
- The order in which records of one kind are visited.
- Batches.RoundTripIff: the serializer is a parameter with its round trip and the layout of its first 40 bytes; a list as long as the number the magic spells (about 3.6e18) cannot exist in memory and is excluded.
- Abi.EncodeAttestedCall: lists of signatures whose total length exceeds 64 bits.
- ABI strings, JSON-RPC, event decoding and EIP-712 digests.
- Streaming: a stream's end marker and first message are taken as the engine's library defines them (content of its own kind, sequence 0), which is not part of this model; eviction of streams does not exist in the code.
- Networking, RPC, the consensus engine, storage, configuration, environment variables and command lines.
