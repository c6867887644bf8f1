# Verified model of the IIoT fog node

The fog node registers devices: a device opens a session with a pre-shared key, submits a DID and a
public key, proves possession of the private key, and is queued. When a registration window closes, the
fog builds one Merkle tree over all members, anchors its root in a signed hash chain, and gives every
device a proof package. Later decisions (`/verify`, `/tokens/access`) combine that evidence with
single-use nonces, a signature for the request, and the current status of the device.

The model has four layers.

1. **Merkle tree** (`Canonical`, `MerkleTree`, `MerkleRfc`, `MerkleSoundness`, `ProofPackage`). The loops of
   the code are proved against functions on levels, and those against the recursive definition of
   sections 2.1 and 2.1.1 of RFC 6962. The code does not claim conformance to that standard; it serves as
   an independent definition of the same tree.
2. **Ledger** (`Ledger`): append, cache, and the independent checker.
3. **Epoch manager** (`Epochs`, `EpochManager`): what closing a window computes, and the loops that do it.
4. **Protocol** (`FogState`, `Stores`, `FogNode`): every endpoint call is one atomic step of a state
   machine. `FogState` says what a step does to plain values; `FogNode` holds the stores as objects and
   proves, handler by handler, that working on them in place does exactly that. `FogInvariant` is the
   invariant of all reachable states. `FogAnswers` spells out, call by call and independently of the
   cascades in `FogState`, what every answer means and what it changes. `FogOnboarding`, `FogNonces`,
   `FogTheorems`, `FogDecisions`, `FogReach` and `FogAccess` are the theorems about whole runs, and
   `FogExample` is a run of two devices.

How cryptography appears:

- SHA-256 is an arbitrary function from byte strings to 32 bytes. It is never assumed injective. A soundness
  claim reads "the property holds, or `HasCollision(h, Q)`", where `Q` is the explicit finite set of strings
  hashed while building and checking; so a collision is a pair of different strings out of that set.
- Signatures are an arbitrary `verify` and a deterministic `sign`. `SignatureCorrect` says that what the fog
  signs verifies under its key. Unforgeability is never assumed: a claim that needs it reads "the property
  holds, or `Forged(...)`": a signature that passes although this run never signed that record.
- Canonical JSON is an arbitrary function on typed records. Where a claim needs it to be injective, it says
  so (`JsonInjective`).

A run starts from empty stores and an empty ledger. The clock reading, the random values and the outcome of
the PSK and admin key checks come with each call. `FreshRun` says that random nonces and token ids never
repeat in a run and contain no separator; the clock may go backwards unless a claim says otherwise.

Where the code and its documentation differ, the model follows the code, and the exact difference is proved:

- The docstring at `fog/tokens/store.py:64-65` says that the first attempt burns a nonce, pass or fail. An
  attempt with the wrong purpose or subject returns first and leaves it usable (`fog/tokens/store.py:71-72`).
  `WrongSubjectLeavesNonce` is the counterexample, `AttemptBurnsExactly` and `AttemptBurnsInRuns` say which
  attempts burn a nonce.
- `fog/tokens/routes.py:16-20` says that a token only goes to a device that is queued. A close may have
  excluded the device in between. `TokenForUnqueuedDevice` is the counterexample run,
  `TokenGoesToQueuedExactly` the exact condition.

Two consequences of closing: a close with nothing queued anchors the carried devices again, so two epochs
share a root (`IdleCloseRepeatsRoot`, `SameRootExactly`); and a queued device named in `exclude_dids` is
dropped for good, because the batch is emptied (`fog/batch/epoch_manager.py:155`, `DroppedForGood`).

## Model

| member | source | states |
|---|---|---|
| MerkleTree.Build | fog/merkle/merkle_tree.py:44-57 | the bottom-up loop builds exactly the table of levels, and the strings it feeds to `node_hash` are exactly the pairs of each level in order; the table and the count are characterised by the lemmas below |
| MerkleTree.NewTree | fog/merkle/merkle_tree.py:30-42 | the constructor accepts exactly the non-empty, 32-byte, duplicate-free collections, reports the first check that fails, and yields a tree whose index finds every leaf at its own place and whose leaves, when sorted, ascend: of two neighbours the one that is smaller at their first different byte comes first |
| MerkleTree.GetProof | fog/merkle/merkle_tree.py:89-104 | the index loop (`index ^ 1`, `index // 2`, promoted nodes skipped) returns the proof of that leaf, and nothing exactly when the leaf is not in the tree |
| MerkleTree.ReconstructRoot | fog/merkle/merkle_tree.py:123-145 | the climbing loop over an untrusted path of any length, malformed steps included, computes the specification `Reconstruct` |
| MerkleTree.VerifyProof | fog/merkle/merkle_tree.py:106-120 | true exactly when the path reconstructs the given root; a root of the wrong length is never accepted |
| MerkleTree.ReconstructsExactly | fog/merkle/merkle_tree.py:123-145 | the climb gives no root exactly when the leaf is not 32 bytes or some step of the path, wherever it stands, has no 32-byte sibling or no side |
| MerkleTree.ComputeRoot | fog/merkle/merkle_tree.py:148-150 | the result depends only on the set of leaves: it is the root over the leaves in ascending order, by the first different byte, whatever the arrival order |
| ByteOrder.LeqIsByFirstDifference | fog/merkle/merkle_tree.py:40-40 | the order in which leaves are sorted: of two different strings of one length the smaller is the one with the smaller byte where they first differ |
| MerkleRfc.SplitUnique | fog/merkle/merkle_tree.py:44-57 | the split point of the recursive definition is the one power of two k with k < n <= 2k |
| MerkleRfc.RootIsTreeHash | fog/merkle/merkle_tree.py:44-57 | for every size n >= 1 the level-by-level loop with promotion computes the recursive Merkle Tree Hash of section 2.1 of RFC 6962 |
| MerkleRfc.LevelsAreSubtreeHashes | fog/merkle/merkle_tree.py:44-57 | `levels[k][i]` is the tree hash of leaves i*2^k up to min((i+1)*2^k, n) |
| MerkleRfc.ProofIsAuditPath | fog/merkle/merkle_tree.py:89-104 | the proof found by index arithmetic is the audit path of section 2.1.1 of RFC 6962, step for step |
| MerkleRfc.ProofCompleteness | fog/merkle/merkle_tree.py:133-143 | for every tree of every size and every leaf, `reconstruct_root(leaf, get_proof(leaf))` is the root |
| MerkleRfc.HeightBounds | fog/merkle/merkle_tree.py:72-74 | for n >= 2 leaves the height h satisfies 2^(h-1) < n <= 2^h |
| MerkleRfc.LevelCount | fog/merkle/merkle_tree.py:72-74 | the number of levels built is the height plus one |
| MerkleRfc.ProofLength | fog/merkle/merkle_tree.py:97-103 | no proof has more steps than the tree is high |
| MerkleRfc.NodeHashCount | fog/merkle/merkle_tree.py:44-57 | building over n leaves calls `node_hash` exactly n-1 times |
| Canonical.LeafInputInjective | common/canonical.py:34-40 | the bytes hashed for a leaf determine the DID and the 33-byte key, although a DID may contain the separator |
| Canonical.LeafIsNotNode | common/canonical.py:34-47 | no leaf input is a node input: the 0x00 and 0x01 prefixes keep them apart |
| Canonical.LeafLayout | common/canonical.py:34-40 | byte by byte: 0x00, the DID, the separator, the key; and a hash exactly for a DID with the prefix and a 33-byte key |
| Canonical.NodeLayout | common/canonical.py:43-47 | byte by byte: 0x01, the left child, the right child |
| Canonical.DidReads | common/crypto_utils.py:48-53 | a DID is the text "did:iiot:" and the lower-case hex of the first eight bytes of the hash of the key |
| MerkleSoundness.ProofAcceptsExactlyNodes | fog/merkle/merkle_tree.py:106-145 | `verify_proof` alone accepts a value exactly when it is some node of the tree, inner nodes included, with the path of that node; otherwise two of the listed strings collide |
| MerkleSoundness.InnerNodePassesVerifyProof | fog/merkle/merkle_tree.py:106-120 | the counterexample that keeps soundness out of `verify_proof`: every node of every level above the leaves passes as if it were a leaf, by a path that is shorter by the levels below it, and where a pair was hashed it is the hash of two nodes |
| MerkleSoundness.PathUniqueness | fog/merkle/merkle_tree.py:123-145 | a path of any length by which a recomputed leaf hash climbs to the root is `get_proof` of that leaf step for step, or an explicit collision exists |
| MerkleSoundness.MembershipSoundness | fog/proofs/proof_package.py:64-86 | only an identity whose leaf is in the tree has an accepted path, or an explicit collision exists |
| MerkleSoundness.RootBinding | fog/merkle/merkle_tree.py:44-57 | two trees over leaf hashes have equal roots exactly when they have the same leaves in the same places, even when their sizes differ, or an explicit collision exists |
| MerkleSoundness.ComputeRootBinding | fog/merkle/merkle_tree.py:148-150 | `compute_root` of two duplicate-free collections agrees exactly when they hold the same leaves, in whatever order, or an explicit collision exists |
| MerkleSoundness.ProofsChangeWithTheSet | fog/merkle/merkle_tree.py:89-104 | when the set of leaves changes, the proof of every leaf that stays changes too, or an explicit collision exists |
| ProofPackages.PackageFromTree | fog/proofs/proof_package.py:29-37 | the package handed out for a leaf carries the root of the tree, that leaf's proof and a signature over (did, leaf, root, epoch, fog) |
| ProofPackages.BuiltPackageAccepted | fog/proofs/proof_package.py:29-94 | a built package is accepted against the root of its own tree; against any other root, or none, it is rejected with the reason the code gives |
| ProofPackages.VerdictsExactly | fog/proofs/proof_package.py:50-94 | each verdict on an arbitrary package means exactly that the checks before it pass and its own fails, in the documented order; accepted means that all pass |
| ProofPackages.SignatureBindsPackage | fog/proofs/proof_package.py:29-37 | packages with the same signed text agree in DID, leaf, root, epoch and fog |
| ProofPackages.PackageSoundness | fog/proofs/proof_package.py:50-94 | a package that `verify_proof_package` accepts names a (DID, key) pair of the tree and carries exactly that leaf's proof, or an explicit collision exists |
| Ledgers.CheckerAcceptsExactlyLinked | registry/ledger.py:111-133 | `verify_chain` accepts exactly the chains in which every block has its index, its predecessor's hash, a valid signature and its own hash |
| Ledgers.AcceptedFileIsComplete | registry/ledger.py:117-121 | a file with an incomplete block is never accepted |
| Ledgers.ReportExactly | registry/ledger.py:111-133 | a report is the right one if and only if the checker gives it: it names the first block that fails and the first of missing field, index, link, signature, hash that this block fails |
| Ledgers.TruncationAccepted | registry/ledger.py:111-133 | the limit of the checker: every prefix of an accepted chain is accepted |
| Ledgers.ChainBinding | registry/ledger.py:111-133 | two accepted non-empty chains end in the same block hash exactly when they are the same chain, bodies and signatures included, or an explicit collision exists; the two may be checked under different keys |
| Ledgers.HonestLedgerVerifies | registry/ledger.py:67-101 | a ledger built by any sequence of `anchor_root` calls passes `verify_chain`, its cache is the one a reload would rebuild, and cache and scan answer alike |
| Ledgers.AnchorExactly | registry/ledger.py:67-89 | an epoch is refused exactly when it is anchored already or its root is not 32 bytes; otherwise one block is appended, with its position, epoch, root, leaf count, time and fog |
| Ledgers.EpochsAreFrozen | registry/ledger.py:67-95 | between any two moments of a sequence of calls, blocks are only appended and no cached root changes |
| Ledgers.ReloadAgreesWithScanExactly | registry/ledger.py:54-57 | on an arbitrary file, whose epochs may repeat, the reloaded cache and `get_block` agree on every epoch if and only if the first and the last block of each epoch carry the same root |
| Ledgers.ReloadCanDisagree | registry/ledger.py:54-57 | a file on which the two disagree: the cache follows the last block of the epoch, the scan the first |
| Ledgers.AcceptedFileIsPrefix | registry/ledger.py:111-133 | a file accepted under the fog's key has the bodies of a prefix of the honest chain, and the hashes of all but its last block; otherwise one of its blocks carries a forged signature |
| Ledgers.Ledger.constructor | registry/ledger.py:43-57 | loading rebuilds the cache from the file, later blocks overriding earlier ones |
| Ledgers.Ledger.AnchorRoot | registry/ledger.py:67-89 | the block appended is the successor of the last one, the cache gains its root, and a repeated epoch or a root of the wrong length changes nothing |
| Ledgers.Ledger.GetRoot | registry/ledger.py:93-95 | the cached root of the epoch, if any |
| Ledgers.Ledger.GetBlock | registry/ledger.py:97-101 | the first block of the epoch, if any |
| Ledgers.Ledger.LatestEpoch | registry/ledger.py:103-104 | the epoch of the newest block, none exactly for an empty ledger |
| Ledgers.Ledger.VerifyChain | registry/ledger.py:111-133 | the checker loop stops at the first defect with the code's reason, and without a key it uses the fog's own |
| Nonces.BookRefinesLog | fog/tokens/store.py:50-79 | under a clock that never goes back and fresh nonces, `consume` returns ok exactly when a log that forgets nothing says: issued for this purpose and subject, not expired, never accepted before; purging loses nothing |
| Nonces.AcceptedAtMostOnce | fog/tokens/store.py:63-79 | no nonce is accepted twice in any run, even when the clock moves backwards |
| Nonces.AcceptedWasIssued | fog/tokens/store.py:55-79 | whatever the clock does, an accepted nonce was issued before for the same purpose and subject, and in time |
| Nonces.StatusesExactly | fog/tokens/store.py:63-79 | each status means exactly that the checks before it pass and its own fails: known, meant for this purpose and subject, unused, in time; and what each leaves of the entry |
| Nonces.ReplayIsReused | fog/tokens/store.py:73-74 | in every run with a clock that never goes back, the second use of an accepted nonce, in time, is answered as reused |
| Nonces.IssueKeepsLiveOnly | fog/tokens/store.py:50-61 | after an issue the book holds the new nonce and exactly the old ones that have not expired |
| Nonces.AttemptBurnsExactly | fog/tokens/store.py:63-79 | for every book and clock, an attempt leaves the nonce without any later use if and only if the nonce was already gone or used or the attempt named its purpose and subject |
| Nonces.AttemptBurnsInRuns | fog/tokens/store.py:63-79 | in runs with a clock that never goes back, an attempt on an issued nonce burns it for every continuation, except exactly when the nonce was meant for another purpose or subject, was still in time and had not been accepted |
| Nonces.WrongSubjectLeavesNonce | fog/tokens/store.py:64-72 | the documented rule fails: a run in which a wrong subject fails first and the right one is accepted after it |
| Nonces.NonceBook.Purge | fog/tokens/store.py:50-53 | exactly the entries past their expiry are removed |
| Nonces.NonceBook.Issue | fog/tokens/store.py:55-61 | purge first, then one fresh entry |
| Nonces.NonceBook.Consume | fog/tokens/store.py:63-79 | the status and the new entries in every branch; an attempt by the wrong subject leaves the nonce alone |
| Messages.SplitUndoesJoin | fog/tokens/tokens.py:72-75 | splitting at the separator undoes joining when no field contains it |
| Messages.PopMessageInjective | common/canonical.py:50-56 | with challenges of one length, the signed bytes determine challenge and DID |
| Messages.AccessDeterminedExactly | fog/tokens/tokens.py:72-75 | the signed bytes of a token request determine token, DID, nonce, resource and operation if and only if none of the five contains the separator |
| Messages.VerifyDeterminedExactly | fog/verification/routes.py:47-50 | the signed bytes of a /verify request determine DID, epoch number, nonce, resource and operation if and only if nonce, resource and operation contain no separator and no later piece of the DID reads as a number |
| Messages.AccessMessageInjective | fog/tokens/tokens.py:72-75 | no other request, whatever its fields, has the signed bytes of a separator-free one |
| Messages.VerifyMessageInjective | fog/verification/routes.py:47-50 | no other request, whatever its fields, has the signed bytes of one that meets that condition |
| Messages.SeparatorInFieldIsAmbiguous | fog/tokens/tokens.py:72-75 | an example: two different requests with the same signed bytes |
| Messages.MessagesDisjoint | fog/verification/routes.py:47-50 | no possession, token or verify message is ever a message of another kind, whatever the fields |
| Messages.MessageLayouts | fog/verification/routes.py:47-50 | the three signed messages byte by byte: label, fields and separators in their order |
| Messages.DecimalReads | fog/verification/routes.py:49-49 | the text of an epoch number: digits that read back as the number, without leading zeros, after a minus sign when negative |
| Policy.AllowedNamesHaveNoSeparator | fog/policy/access_policy.py:56-64 | whatever the policy can allow is named without the message separator |
| Policy.PolicyByRole | fog/policy/access_policy.py:32-64 | the table read by role: what a sensor, a monitor, an actuator and a controller may do, and nobody else anything |
| Policy.RolesByType | fog/policy/access_policy.py:43-68 | the roles that each device type may hold, and none without a type or a role |
| Policy.ProvisionalByType | fog/policy/access_policy.py:54-73 | with a fitting role, both token checks together pass exactly on the own type: read except for valves and motors, write except for cameras |
| Epochs.CloseConserves | fog/batch/epoch_manager.py:103-156 | with carry-forward on, every DID that was queued or in the last root is in exactly one of the new packages and the excluded list, and packages = leaves = new + carried |
| Epochs.QueueExactly | fog/batch/epoch_manager.py:79-88 | which identities the batch takes, which refusal the others get, and the entry of the new one |
| Epochs.MembersExactly | fog/batch/epoch_manager.py:103-126 | who is in the next root: queued, or REGISTERED under carry-forward, and neither REVOKED nor excluded |
| Epochs.CountsExactly | fog/batch/epoch_manager.py:103-126 | new devices are the members from the batch, carried ones the other members, and excluded the blocked ones that were queued or active |
| Epochs.RecordsAfterClose | fog/batch/epoch_manager.py:145-152 | packaged records become REGISTERED with their leaf and epoch and keep key and description, others stay as they are |
| Epochs.SortedLeavesAscend | fog/batch/epoch_manager.py:128-128 | the leaves of an epoch are those of its members, and they ascend |
| EpochManagers.EpochManager.constructor | fog/batch/epoch_manager.py:56-71 | numbering continues after the newest block, or starts at 1 |
| EpochManagers.EpochManager.AddLeaf | fog/batch/epoch_manager.py:79-88 | a DID is queued once, with the leaf hash of its identity; a refusal leaves the batch as it was |
| EpochManagers.EpochManager.GetPackage | fog/batch/epoch_manager.py:180-184 | with an epoch, what that epoch packaged; without one, in every state that keeps the invariant, the newest package that the device was ever given, and none exactly when no epoch packaged it |
| EpochManagers.EpochManager.FinalizeEpoch | fog/batch/epoch_manager.py:100-176 | the loops over stores, batch, leaves and packages, updating records in place, do exactly what the specification `Finalize` says to devices, ledger, packages, batch and counters; a failing close changes nothing; what the result says is `CloseResultExactly` |
| EpochManagers.CollectLeaves | fog/batch/epoch_manager.py:128-138 | whatever the dictionary order, the leaves are those of the members, the tree accepts them exactly when they are distinct hashes, and every leaf finds its owner |
| EpochManagers.BuildPackages | fog/batch/epoch_manager.py:137-142 | the loop over the leaves issues one package per member, the one built from the tree at that leaf |
| Stores.SessionObject.IssueChallenge | fog/registration/pop.py:20-24 | a new challenge replaces the old one, unused, with its expiry |
| Stores.SessionObject.VerifyPop | fog/registration/pop.py:27-43 | any attempt on an open challenge uses it up; success needs it in time and a signature over challenge and DID under the submitted key |
| Stores.SessionStore.Create | fog/storage/device_store.py:44-48 | a new session, in the first state, under its id |
| Stores.SessionStore.Get | fog/storage/device_store.py:50-56 | an expired session is deleted by the lookup that finds it |
| Stores.SessionStore.DidInUse | fog/storage/device_store.py:58-63 | true exactly when another session beyond the first state has this DID |
| Stores.DeviceStore.Upsert | fog/storage/device_store.py:71-73 | the record is filed under its DID and no other record changes |
| Stores.DeviceStore.SetStatus | fog/storage/device_store.py:83-86 | one record changes, in its status only; an unknown DID changes nothing |
| Stores.DeviceStore.ByStatus | fog/storage/device_store.py:88-90 | exactly the devices with that status |
| FogAnswers.StartExactly | fog/registration/routes.py:58-73 | without the PSK nothing changes and the answer is 401; with it exactly one session is new, in the first state |
| FogAnswers.KeyAnswersExactly | fog/registration/routes.py:76-110 | which check fails first for each status code, and the challenged session when none does |
| FogAnswers.PopAnswersExactly | fog/registration/routes.py:113-130 | the same for the possession proof: a failed attempt uses the challenge up and sends the session back, a good one creates the record |
| FogAnswers.MetadataAnswersExactly | fog/registration/routes.py:133-168 | the same for metadata, and what is annotated and queued |
| FogAnswers.IssueAnswersExactly | fog/tokens/routes.py:79-111 | which check refuses a token, and every field of the one that is sent |
| FogAnswers.NonceAnswersExactly | fog/tokens/routes.py:114-122 | a nonce is sent exactly for an issued token, or a DID on record, and filed under the purpose of its endpoint |
| FogAnswers.AccessAnswersExactly | fog/tokens/routes.py:125-158 | each reason means exactly that the checks before it pass and its own fails, ALLOW that all eight pass; only the nonce changes |
| FogAnswers.VerifyAnswersExactly | fog/verification/routes.py:90-156 | the same for /verify: nonce, package, evidence, possession, record, revocation, registration, role, policy |
| FogAnswers.RevokeTokenExactly | fog/revocation/routes.py:40-48 | only an admin, and only an issued token of that very DID: exactly its id is blacklisted and nothing else changes |
| FogAnswers.RevokeDeviceExactly | fog/revocation/routes.py:50-56 | only an admin, and only a DID on record: its status becomes REVOKED, all its tokens are blacklisted and listed, no other record changes |
| FogAnswers.CloseAnswersExactly | fog/batch/routes.py:43-64 | 401 exactly without the admin key, 409 exactly without a member, and a close that does not succeed changes nothing |
| FogAnswers.CloseResultExactly | fog/batch/epoch_manager.py:126-176 | the result of a close: ascending leaves of the members, the root over them, one package per member, the counts, and a block that says all this |
| FogAnswers.KeysAreRequired | fog/revocation/routes.py:34-39 | a window is closed and something is revoked only by the admin, a session is opened only with the PSK; an admin call without the key changes nothing |
| FogInvariant.StepKeeps | fog/registration/routes.py:77-168 | every step of every endpoint keeps the invariant that ties sessions, records, batch, tokens, packages and roots together, and no record goes back |
| FogInvariant.RunKeeps | fog/storage/device_store.py:24-93 | the invariant holds in every state that a run from empty stores can reach, without any assumption on keys or signatures |
| FogInvariant.RunKeepsLedger | registry/ledger.py:67-95 | when the fog's own signatures verify, in every state of a run the ledger is a linked chain with unique epochs and the cache that a reload would rebuild |
| FogInvariant.SubmitMetadataKeeps | fog/registration/routes.py:133-168 | the metadata step keeps the invariant, never fails with an unhandled error, and queues exactly the live sessions with a proven key and valid metadata |
| FogTheorems.StatusNeverMovesDown | fog/storage/device_store.py:83-86 | between any two moments of a run no record is lost, no key changes, and no status moves down PENDING, TOKENIZED, REGISTERED, REVOKED |
| FogTheorems.HistoryIsPermanent | fog/batch/epoch_manager.py:124-156 | anchored roots, issued packages and blocks stay as they are in every later state |
| FogTheorems.IssuedPackagesStayValid | fog/batch/epoch_manager.py:136-142 | every package ever issued is accepted by `verify_proof_package` against `get_root` of its own epoch in every later state |
| FogTheorems.NewestPackageAccepted | fog/batch/epoch_manager.py:145-156 | in every state of a run the package on offer for a device exists exactly when some epoch packaged it, is the newest one, and is accepted against `get_root` of its own epoch |
| FogTheorems.CloseOutcome | fog/batch/epoch_manager.py:121-134 | an admin's close succeeds whenever it has a member, unless two member identities collide, so the ledger never refuses it; a close that fails changes nothing |
| FogTheorems.EveryCloseConserves | fog/batch/epoch_manager.py:103-156 | conservation at every close of every run: each DID queued or in the last root is in exactly one of packages and excluded, the counts add up, the batch is emptied, and without exclusions the active set is exactly the REGISTERED devices |
| FogTheorems.SameRootExactly | fog/batch/epoch_manager.py:103-134 | two anchored epochs of a run have the same root if and only if they have the same members, or an explicit collision exists |
| FogTheorems.IdleCloseRepeatsRoot | fog/batch/epoch_manager.py:103-134 | after a close without exclusions, a second one by the admin with nothing queued always succeeds and anchors the same root under the next epoch number |
| FogTheorems.AcceptedIsIssued | fog/proofs/proof_package.py:50-94 | an accepted package agrees with the issued one in DID, key, leaf, root and path, or an explicit collision exists |
| FogTheorems.RevokedStaysOut | fog/batch/epoch_manager.py:104-118 | no package with the DID of a revoked device, whatever its key, path or signature, is accepted against the root of an epoch closed after the revocation, or an explicit collision exists |
| FogTheorems.PackagesComeFromClose | fog/batch/epoch_manager.py:153-153 | the packages on file for an epoch are those that some earlier close answered with |
| FogNonces.NonceAllowsOnce | fog/tokens/routes.py:126-158 | no nonce leads to two ALLOW decisions, on either endpoint, whatever the clock does |
| FogNonces.AllowedNonceWasIssued | fog/verification/routes.py:80-102 | the nonce of an allowed request was sent before by this fog for the same endpoint and the same DID or token, and in time |
| FogNonces.NonceCheckIsExact | fog/tokens/store.py:63-79 | in every run with a clock that never goes back, the nonce check of a call is exactly the check against the full log |
| FogDecisions.VerifyAllowJustified | fog/verification/routes.py:90-156 | every ALLOW from /verify: the package's (DID, key) was a member of the stated epoch when it closed and the key is the one on record (or an explicit collision exists), possession of the key on record was proven for this DID before, in a session opened with the PSK, the key of the package signed exactly this request, the device is REGISTERED now with a role that its type may hold and that may do this, and the nonce was sent for this DID and leads to no other ALLOW |
| FogDecisions.IssuedPackageDecides | fog/verification/routes.py:90-156 | for a package the fog ever issued, /verify answers ALLOW if and only if the full nonce log accepts the nonce, the key on record signed this request, and the current record is REGISTERED with a role that its type may hold and that may do this |
| FogDecisions.AccessAllowJustified | fog/tokens/routes.py:125-158 | every ALLOW from /tokens/access: the token is one this fog sent, repeats the current record, and possession of its key was proven before in a session opened with the PSK (or its signature is forged), neither it nor its owner is revoked, its key signed exactly this request, which reads or writes the device's own type as its role may, and the nonce was sent for this token and leads to no other ALLOW |
| FogDecisions.RevokedNeverAllowed | fog/revocation/registry.py:29-42 | from the moment a DID is revoked, no later request with that DID, by package or by token, is allowed |
| FogDecisions.RevokedTokenNeverAllowed | fog/revocation/registry.py:45-51 | from the moment a token id is blacklisted, no later access with that token id is allowed |
| FogDecisions.StoresAgree | fog/revocation/registry.py:29-42 | in every reachable state all tokens of a REVOKED device are blacklisted, no DID is both queued and REGISTERED, every DID is derived from the recorded key, and at most one session per DID is beyond AUTHENTICATED |
| FogDecisions.AcceptedIsExactlyIssued | fog/proofs/proof_package.py:50-94 | in every run an accepted package equals the issued one in every field but the text of its signature, or an explicit collision exists, or its signature is forged |
| FogOnboarding.SessionWasOpened | fog/registration/routes.py:58-73 | every session of every reachable state goes back to a call of /register/start with its id and an accepted PSK, at the time it was created, and no such call came later |
| FogOnboarding.KeyProvenJustified | fog/registration/pop.py:20-43 | every accepted possession proof answers a challenge this fog sent to this session, which was opened before with the PSK and has not expired, for a key from which the DID is derived: the signature covers exactly that challenge and DID under that key, in time, and it is the first attempt on that challenge |
| FogOnboarding.ProofsNeverShareBytes | fog/registration/routes.py:76-130 | when random challenges never repeat, two accepted possession proofs of a run never rest on the same signed bytes |
| FogOnboarding.RecordWasProven | fog/registration/routes.py:113-130 | every record of every reachable state goes back to an accepted possession proof for its DID under the key on record, in a session opened with the PSK |
| FogDecisions.PopNeverOverwrites | fog/registration/routes.py:113-130 | `upsert` in /pop only ever inserts a DID that had no record |
| FogDecisions.MetadataAlwaysQueues | fog/registration/routes.py:133-168 | in every run, a session that has proven its key and sends valid metadata in time is queued: `add_leaf` never raises |
| FogDecisions.OneSignatureOneAllow | fog/tokens/tokens.py:72-75 | two different ALLOW decisions of a run are never for the same signed bytes, within one endpoint or across both, unless one rests on a forged token |
| FogDecisions.FogFileIsPrefix | registry/ledger.py:111-133 | after any run of the node, a file that the checker accepts has the block bodies of a prefix of the chain anchored in that run, or one of its blocks is forged |
| FogDecisions.BlocksDescribeEpochs | fog/batch/epoch_manager.py:130-156 | in every run the n-th block anchors epoch n+1, with the cached root of that epoch, as many leaves as it issued packages, and the id of this fog |
| FogReach.LockedOutForGood | fog/registration/routes.py:77-168 | a device on record that is neither registered nor queued nor held by a session with its proven key stays so in every later state, and no later epoch packages it |
| FogReach.DroppedForGood | fog/batch/epoch_manager.py:104-156 | a queued device that a close excludes is, in every later state, neither queued nor REGISTERED, and neither that close nor any later one packages it |
| FogReach.TokenGoesToQueuedExactly | fog/tokens/routes.py:79-111 | at every token sent, the device is queued if and only if no earlier close excluded it while it was queued |
| FogReach.ExcludedStillGetsToken | fog/tokens/routes.py:79-111 | after a close that excluded its queued device, a live session still gets a token for it |
| FogExample.TokenForUnqueuedDevice | fog/tokens/routes.py:79-111 | a run where that happens: two devices register by the rules from empty stores, a close excludes the second, and the second is sent a token while it is not queued |
| FogExample.RulesCanBeFollowed | fog/registration/routes.py:76-168 | a configuration, with correct signatures, two devices that play by the rules, and a holder of a token: the hypotheses about honest devices can be met |
| FogReach.ExpiryLocksOut | fog/storage/device_store.py:50-56 | a session with a proven key that any call finds expired locks its device out |
| FogReach.BusySessionBlocks | fog/storage/device_store.py:58-63 | an expired session still counts as in use: beyond AUTHENTICATED and never looked up, it keeps its DID out of every other session in every continuation of the run |
| FogReach.MetadataInTimeExactly | fog/registration/routes.py:133-168 | valid metadata of a proven key is queued if and only if the session has not expired, and the device is locked out by that call if and only if it has |
| FogReach.RegistrationOpenExactly | fog/registration/routes.py:133-168 | from any time t on, a waiting device can be registered exactly when a session with its proven key is stored that has not expired at t: then metadata at t and a close register it, unless member identities collide; otherwise no continuation of the run does whose calls are dated t or later |
| FogReach.HonestDeviceAllowed | fog/verification/routes.py:90-156 | from every reachable state, a device that plays by the rules with an identity not in use gets ALLOW after the six calls of the protocol exactly for what its role may do, unless member identities of that close collide |
| FogAccess.WhoMayStop | fog/policy/access_policy.py:32-51 | in every run, nothing is stopped by token, and by package only PLCs as controllers stop, or valves and motors one another; never a sensor or a monitor |
| FogAccess.PlcMayStop | fog/policy/access_policy.py:32-51 | a controller that plays by the rules may stop every resource the policy knows |
| FogAccess.TokenDecides | fog/tokens/routes.py:125-158 | for any token with a valid fog signature, /tokens/access answers ALLOW if and only if it has not expired, the full nonce log accepts the nonce, neither it nor its owner is revoked, its key signed this request, and this is a read or a write on the type of the token that its role may do |
| FogAccess.SentTokenDecides | fog/tokens/routes.py:79-158 | for a token that the fog ever sent, ALLOW if and only if it is within its lifetime since it was sent, not blacklisted, the nonce is accepted by the full log, the key on record signed this request, and it asks for what the recorded type may do on itself |
| FogAccess.HonestHolderAllowed | fog/tokens/routes.py:79-158 | from every reachable state, a device that registers by the rules is sent a token, and with it gets ALLOW, while the token lives, exactly for what its type may do on itself |
| FogAccess.OneTokenLess | fog/revocation/routes.py:40-48 | revoking one token takes away that token and nothing else: in every continuation the state is what it would have been but for the blacklist, every call is answered as it would have been unless it presents the token, and none that presents it is allowed |
| FogAccess.RevocationIsFinal | fog/revocation/routes.py:50-56 | after an admin revokes a device it is REVOKED in every later state, no request of it and no token sent to it before is allowed, and no later close packages it |
| FogNodes.FogNode.constructor | fog/main.py:62-80 | fresh, empty stores and an empty ledger: the initial state of the state machine |
| FogNodes.FogNode.RegisterStart | fog/registration/routes.py:58-73 | as `Start`: a session is opened exactly when the PSK was accepted; what `Start` answers and changes is `StartExactly` |
| FogNodes.FogNode.RegisterPubkey | fog/registration/routes.py:76-110 | the handler on the objects takes the state exactly where `SubmitKey` goes: expiry, state, key, derived DID, known DID, DID in another session, then the challenge |
| FogNodes.FogNode.RegisterPop | fog/registration/routes.py:113-130 | as `ProvePossession`: a failed proof sends the session back to the start, a passed one creates the record |
| FogNodes.FogNode.RegisterMetadata | fog/registration/routes.py:133-168 | as `SubmitMetadata`: the record is annotated before the leaf is queued, and keeps the annotation when queueing fails |
| FogNodes.FogNode.EpochClose | fog/batch/routes.py:43-64 | as `CloseEpoch`: only with the admin key, and a failing close changes nothing |
| FogNodes.FogNode.TokensIssue | fog/tokens/routes.py:79-111 | as `IssueToken`: the checks in order, then the token is recorded and the device becomes TOKENIZED |
| FogNodes.FogNode.TokensNonce | fog/tokens/routes.py:114-122 | as `TokenNonce`: a nonce only for a token this fog issued |
| FogNodes.FogNode.TokensAccess | fog/tokens/routes.py:125-158 | as `AccessToken`: the decision cascade with its reasons; the nonce is used up by every attempt that reaches it; what the cascade means is `AccessAnswersExactly` and `TokenDecides` |
| FogNodes.FogNode.IssueVerifyNonce | fog/verification/routes.py:80-87 | as `VerifyNonce`: a nonce only for a DID on record |
| FogNodes.FogNode.VerifyAndAuthorize | fog/verification/routes.py:90-156 | as `Verify`: nonce, package, possession, current status, role and policy in this order, with the reason of the first failure; what it means is `VerifyAnswersExactly` and `IssuedPackageDecides` |
| FogNodes.FogNode.RevokeDevice | fog/revocation/registry.py:29-42 | the loop blacklists every token of the device along with it; an unknown DID changes nothing |
| FogNodes.FogNode.RevokeRequest | fog/revocation/routes.py:34-56 | as `Revoke`: a whole device with its tokens, or one token of that DID; what it means is `RevokeDeviceExactly`, `RevokeTokenExactly` and `OneTokenLess` |
| FogNodes.FogNode.Handle | fog/main.py:82-86 | every endpoint call takes the objects exactly one step of the state machine, and only adds objects that did not exist before |
| FogNodes.ServeAll | fog/main.py:50-86 | a node that serves a list of calls goes through the states of the run and gives its answers, so the theorems about runs hold of the objects |

## Left out

- Threads, locks and the automatic close loop: each handler is one atomic step, so interleavings inside a handler are not modelled.
- HTTP, request parsing and status texts; only the status code or decision of each handler is kept, and the read-only endpoints (`/epoch/current`, `/proof`, `/registry`, `/revocation/status`) are omitted.
- The files behind the ledger: a file is a sequence of blocks, and a block with a missing body field is `Incomplete`; a block whose `signature` or `block_hash` is missing or not hex makes the checker raise, which is not modelled.
- Hex and JSON text: fields are the decoded bytes, so letter case and white space in hex strings are not modelled; text that is not hex decodes to nothing.
- The JSON types of `epoch_id` in a package: it is an integer here, so the `isinstance` guard in `/verify` (which also lets booleans pass) is not modelled.
- Key generation, ECDSA and point checks: the point check and the metadata validation are arbitrary predicates of the configuration, the PSK and admin key checks are booleans of the call.
- Restart with a non-empty ledger and empty stores: the ledger and epoch manager constructors cover it, the theorems about runs do not.
- The session's `provisioning_id` and timings, `queued_at` of a batch entry, all logging and timing fields, and the constant token fields `scope` and `allowed_operations`.
- Dictionary order: loops over dictionaries visit their keys in an arbitrary order, so the order of `pending` and of `excluded` is not modelled.
- The fixed times to live: they are fields of the configuration, of any value.
- `sign_access`, `sign_verify_request`, `contains` and other helpers on the device side or without effect.
- FogDecisions.AccessAllowJustified: a token of another run of the same fog counts as forged here, because a run starts with no token issued.
- Ledgers.AcceptedFileIsPrefix: the hash of the last block may differ, because the checker does not bind a signature to the one the fog produced.
